/** Grandfather-father-son retention: which snapshots a classification run protects and expires. */
module Retention {
  import opened Common
  import opened Snapshots
  import opened Sorting

  datatype Snapshot = Snapshot(id: string, time: int, estado: SnapshotState)

  // Times count microseconds from 1970-01-01, a Thursday.
  const DAY: int := 86_400_000_000
  const WEEK: int := 7 * DAY
  const RETENTION_DAILY: nat := 7
  const RETENTION_WEEKLY: nat := 4
  const RETENTION_MONTHLY: nat := 12

  /** The index of the ISO week, which starts on a Monday; it stands for the pair (ISO year, ISO week). */
  function IsoWeek(t: int): int {
    (t + 3 * DAY) / WEEK
  }

  lemma WeeksBack(now: int, k: int)
    ensures IsoWeek(now - k * WEEK) == IsoWeek(now) - k
  {
  }

  /** A calendar index that never goes back: month numbers (12 * year + month) and ISO weeks do not. */
  ghost predicate Monotone(index: int -> int) {
    forall t, u | t <= u :: index(t) <= index(u)
  }

  /** One snapshot per calendar period, for the last `count` periods: the newest one or the oldest one. */
  datatype Rule = Rule(index: int -> int, count: nat, newest: bool)

  function Monthly(month: int -> int): Rule { Rule(month, RETENTION_MONTHLY, false) }

  function Weekly(): Rule { Rule(IsoWeek, RETENTION_WEEKLY, true) }

  function TimeOf(s: Snapshot): int { s.time }

  function Filter<T>(s: seq<T>, keep: T -> bool): (r: seq<T>) {
    if s == [] then [] else (if keep(s[0]) then [s[0]] else []) + Filter(s[1..], keep)
  }

  /** The snapshots of calendar period m, in list order. */
  function InPeriod(index: int -> int, s: seq<Snapshot>, m: int): seq<Snapshot> {
    if s == [] then [] else (if index(s[0].time) == m then [s[0]] else []) + InPeriod(index, s[1..], m)
  }

  /** What the code takes from a sorted, non-empty period: the first entry or the last one. */
  function Pick(newest: bool, l: seq<Snapshot>): Snapshot
    requires l != []
  {
    SortKeepsLength(l);
    var sorted := SortBy(l, TimeOf);
    if newest then sorted[|sorted| - 1] else sorted[0]
  }

  lemma SortKeepsLength(l: seq<Snapshot>)
    ensures |SortBy(l, TimeOf)| == |l|
  {
    SortBySorts(l, TimeOf);
    assert |multiset(SortBy(l, TimeOf))| == |multiset(l)|;
  }

  /** The id picked in period m, if any snapshot lies in it. */
  function PickedOf(rule: Rule, s: seq<Snapshot>, m: int): set<string> {
    var l := InPeriod(rule.index, s, m);
    if l == [] then {} else {Pick(rule.newest, l).id}
  }

  /** The ids the rule picks in the n periods up to the one of now. */
  function PickedIds(rule: Rule, s: seq<Snapshot>, now: int, n: nat): set<string> {
    if n == 0 then {}
    else PickedIds(rule, s, now, n - 1) + PickedOf(rule, s, rule.index(now) - (n - 1))
  }

  function DailyIds(s: seq<Snapshot>, now: int): set<string> {
    if s == [] then {}
    else
      var last := s[|s| - 1];
      DailyIds(s[..|s| - 1], now) + if last.time >= now - RETENTION_DAILY * DAY then {last.id} else {}
  }

  function ProtectedIds(s: seq<Snapshot>, month: int -> int, now: int): set<string> {
    PickedIds(Monthly(month), s, now, RETENTION_MONTHLY) + PickedIds(Weekly(), s, now, RETENTION_WEEKLY)
    + DailyIds(s, now)
  }

  function ExpiredTest(ids: set<string>): Snapshot -> bool {
    (s: Snapshot) => s.id !in ids && s.estado == COMPLETED
  }

  function KeptTest(ids: set<string>): Snapshot -> bool {
    (s: Snapshot) => s.id in ids || s.estado != COMPLETED
  }

  function Expired(s: seq<Snapshot>, month: int -> int, now: int): seq<Snapshot> {
    Filter(s, ExpiredTest(ProtectedIds(s, month, now)))
  }

  function Kept(s: seq<Snapshot>, month: int -> int, now: int): seq<Snapshot> {
    Filter(s, KeptTest(ProtectedIds(s, month, now)))
  }

  /** Monthly: the first snapshot of each of the last twelve months. */
  method ProtectMonthly(snapshots: seq<Snapshot>, month: int -> int, now: int) returns (protected: set<string>)
    ensures protected == PickedIds(Monthly(month), snapshots, now, RETENTION_MONTHLY)
  {
    protected := {};
    for k := 0 to RETENTION_MONTHLY
      invariant protected == PickedIds(Monthly(month), snapshots, now, k)
    {
      var inMonth := InPeriod(month, snapshots, month(now) - k);
      if inMonth != [] {
        SortKeepsLength(inMonth);
        inMonth := SortBy(inMonth, TimeOf);
        protected := protected + {inMonth[0].id};
      }
      assert protected ==
        PickedIds(Monthly(month), snapshots, now, k) + PickedOf(Monthly(month), snapshots, month(now) - k);
    }
  }

  /** The last snapshot of one ISO week. */
  method ProtectWeek(snapshots: seq<Snapshot>, week: int) returns (picked: set<string>)
    ensures picked == PickedOf(Weekly(), snapshots, week)
  {
    var inWeek := InPeriod(IsoWeek, snapshots, week);
    picked := {};
    if inWeek != [] {
      SortKeepsLength(inWeek);
      inWeek := SortBy(inWeek, TimeOf);
      picked := {inWeek[|inWeek| - 1].id};
    }
  }

  lemma PickedIdsSnoc(rule: Rule, s: seq<Snapshot>, now: int, k: nat)
    ensures PickedIds(rule, s, now, k + 1) == PickedIds(rule, s, now, k) + PickedOf(rule, s, rule.index(now) - k)
  {
  }

  /** Weekly: the last snapshot of each of the last four ISO weeks. */
  method ProtectWeekly(snapshots: seq<Snapshot>, now: int) returns (protected: set<string>)
    ensures protected == PickedIds(Weekly(), snapshots, now, RETENTION_WEEKLY)
  {
    protected := {};
    for k := 0 to RETENTION_WEEKLY
      invariant protected == PickedIds(Weekly(), snapshots, now, k)
    {
      WeeksBack(now, k);
      PickedIdsSnoc(Weekly(), snapshots, now, k);
      var picked := ProtectWeek(snapshots, IsoWeek(now - k * WEEK));
      protected := protected + picked;
    }
  }

  /** Daily: everything of the last seven days. */
  method ProtectDaily(snapshots: seq<Snapshot>, now: int) returns (protected: set<string>)
    ensures protected == DailyIds(snapshots, now)
  {
    protected := {};
    var cutoff := now - RETENTION_DAILY * DAY;
    for i := 0 to |snapshots|
      invariant protected == DailyIds(snapshots[..i], now)
    {
      assert snapshots[..i + 1][..i] == snapshots[..i];
      if snapshots[i].time >= cutoff {
        protected := protected + {snapshots[i].id};
      }
    }
    assert snapshots[..|snapshots|] == snapshots;
  }

  /** The classification run: the three kinds of protection are collected and the rest is expired. */
  method ClassifySnapshots(snapshots: seq<Snapshot>, month: int -> int, now: int) returns (expired: seq<Snapshot>)
    ensures expired == Expired(snapshots, month, now)
    ensures forall x :: x in expired <==>
      x in snapshots && x.estado == COMPLETED && x.id !in ProtectedIds(snapshots, month, now)
    ensures DistinctIds(snapshots) ==> forall i: nat | i < |snapshots| :: snapshots[i] in expired <==>
      && snapshots[i].estado == COMPLETED
      && !FirstOfMonth(snapshots, month, now, i) && !LastOfWeek(snapshots, now, i)
      && snapshots[i].time < now - 7 * 86_400_000_000
  {
    var monthly := ProtectMonthly(snapshots, month, now);
    var weekly := ProtectWeekly(snapshots, now);
    var daily := ProtectDaily(snapshots, now);
    var protected := monthly + weekly + daily;
    FilterMembers(snapshots, ExpiredTest(protected));
    expired := Filter(snapshots, ExpiredTest(protected));
    if DistinctIds(snapshots) {
      forall i: nat | i < |snapshots| ensures snapshots[i].id in protected <==>
          FirstOfMonth(snapshots, month, now, i) || LastOfWeek(snapshots, now, i)
          || snapshots[i].time >= now - 7 * 86_400_000_000
      {
        ProtectedByCalendar(snapshots, month, now, i);
      }
    }
  }

  // ---------- filtering ----------

  lemma {:induction false} FilterMembers<T>(s: seq<T>, keep: T -> bool)
    ensures forall x :: x in Filter(s, keep) <==> x in s && keep(x)
  {
    if s != [] {
      FilterMembers(s[1..], keep);
      assert s == [s[0]] + s[1..];
    }
  }

  lemma {:induction false} FilterAppend<T>(a: seq<T>, b: seq<T>, keep: T -> bool)
    ensures Filter(a + b, keep) == Filter(a, keep) + Filter(b, keep)
  {
    if a == [] {
      assert a + b == b;
    } else {
      assert (a + b)[1..] == a[1..] + b;
      FilterAppend(a[1..], b, keep);
      var head := if keep(a[0]) then [a[0]] else [];
      assert head + (Filter(a[1..], keep) + Filter(b, keep)) == (head + Filter(a[1..], keep)) + Filter(b, keep);
    }
  }

  lemma {:induction false} FilterSame<T>(s: seq<T>, f: T -> bool, g: T -> bool)
    requires forall x | x in s :: f(x) == g(x)
    ensures Filter(s, f) == Filter(s, g)
  {
    if s != [] {
      FilterSame(s[1..], f, g);
    }
  }

  lemma {:induction false} FilterAll<T>(s: seq<T>, f: T -> bool)
    requires forall x | x in s :: f(x)
    ensures Filter(s, f) == s
  {
    if s != [] {
      FilterAll(s[1..], f);
    }
  }

  lemma {:induction false} FilterCommutes<T>(s: seq<T>, f: T -> bool, g: T -> bool)
    ensures Filter(Filter(s, f), g) == Filter(Filter(s, g), f)
  {
    if s != [] {
      FilterCommutes(s[1..], f, g);
      FilterAppend(if f(s[0]) then [s[0]] else [], Filter(s[1..], f), g);
      FilterAppend(if g(s[0]) then [s[0]] else [], Filter(s[1..], g), f);
    }
  }

  // ---------- the picked snapshot ----------

  lemma {:induction false} InsertEnds(x: Snapshot, s: seq<Snapshot>)
    requires s != []
    ensures |Insert(x, s, TimeOf)| == |s| + 1
    ensures Insert(x, s, TimeOf)[0] == if x.time <= s[0].time then x else s[0]
    ensures SortedBy(s, TimeOf) ==>
      Insert(x, s, TimeOf)[|s|] == if x.time <= s[|s| - 1].time then s[|s| - 1] else x
  {
    if SortedBy(s, TimeOf) {
      HeadLeast(s, TimeOf);
      assert s[|s| - 1] in s;
    }
    if x.time > s[0].time && |s| > 1 {
      InsertEnds(x, s[1..]);
    }
  }

  /** Later entries win ties for the newest, earlier entries win ties for the oldest. */
  lemma PickStep(newest: bool, l: seq<Snapshot>)
    requires l != []
    ensures |l| == 1 ==> Pick(newest, l) == l[0]
    ensures |l| > 1 ==>
      Pick(newest, l) == if newest == (l[0].time <= Pick(newest, l[1..]).time) then Pick(newest, l[1..]) else l[0]
  {
    if |l| == 1 {
      assert SortBy(l, TimeOf) == Insert(l[0], SortBy([], TimeOf), TimeOf) == [l[0]];
    } else {
      var rest := SortBy(l[1..], TimeOf);
      SortKeepsLength(l[1..]);
      SortBySorts(l[1..], TimeOf);
      InsertEnds(l[0], rest);
      assert SortBy(l, TimeOf) == Insert(l[0], rest, TimeOf);
    }
  }

  lemma {:induction false} PickExtreme(newest: bool, l: seq<Snapshot>)
    requires l != []
    ensures Pick(newest, l) in l
    ensures forall x | x in l :: if newest then x.time <= Pick(newest, l).time else Pick(newest, l).time <= x.time
  {
    PickStep(newest, l);
    assert l == [l[0]] + l[1..];
    if |l| > 1 {
      PickExtreme(newest, l[1..]);
    }
  }

  /** The pick of two. */
  function Choose(newest: bool, x: Snapshot, y: Snapshot): Snapshot {
    if newest == (x.time <= y.time) then y else x
  }

  lemma ChooseAssociates(newest: bool, x: Snapshot, y: Snapshot, z: Snapshot)
    ensures Choose(newest, x, Choose(newest, y, z)) == Choose(newest, Choose(newest, x, y), z)
  {
  }

  lemma PickCons(newest: bool, x: Snapshot, l: seq<Snapshot>)
    requires l != []
    ensures Pick(newest, [x] + l) == Choose(newest, x, Pick(newest, l))
  {
    PickStep(newest, [x] + l);
    assert ([x] + l)[1..] == l;
  }

  lemma {:induction false} PickAppend(newest: bool, a: seq<Snapshot>, b: seq<Snapshot>)
    requires a != [] && b != []
    ensures Pick(newest, a + b) == Choose(newest, Pick(newest, a), Pick(newest, b))
  {
    var x, rest := a[0], a[1..];
    if rest == [] {
      PickStep(newest, a);
      assert a == [x];
      PickCons(newest, x, b);
    } else {
      PickAppend(newest, rest, b);
      assert a == [x] + rest && a + b == [x] + (rest + b);
      PickCons(newest, x, rest);
      PickCons(newest, x, rest + b);
      ChooseAssociates(newest, x, Pick(newest, rest), Pick(newest, b));
    }
  }

  /** Dropping other entries does not change the pick. */
  lemma {:induction false} PickFilter(newest: bool, l: seq<Snapshot>, keep: Snapshot -> bool)
    requires l != [] && keep(Pick(newest, l))
    ensures Filter(l, keep) != [] && Pick(newest, Filter(l, keep)) == Pick(newest, l)
  {
    PickStep(newest, l);
    var rest := Filter(l[1..], keep);
    if |l| > 1 && newest == (l[0].time <= Pick(newest, l[1..]).time) {
      PickFilter(newest, l[1..], keep);
    }
    if keep(l[0]) {
      assert Filter(l, keep) == [l[0]] + rest;
      PickStep(newest, [l[0]] + rest);
      if rest != [] && Pick(newest, l) == l[0] {
        FilterMembers(l[1..], keep);
        PickExtreme(newest, rest);
        PickExtreme(newest, l[1..]);
      }
    } else {
      assert Filter(l, keep) == rest;
    }
  }

  // ---------- purging early ----------

  ghost predicate DistinctIds(s: seq<Snapshot>) {
    forall i, j | 0 <= i < j < |s| :: s[i].id != s[j].id
  }

  /** One id, one snapshot. */
  lemma SameIdSameSnapshot(s: seq<Snapshot>, x: Snapshot, y: Snapshot)
    requires DistinctIds(s) && x in s && y in s && x.id == y.id
    ensures x == y
  {
  }

  lemma PickAmongFewer(newest: bool, a: seq<Snapshot>, b: seq<Snapshot>, e: Snapshot)
    requires a != [] && e in a && e !in b && Pick(newest, a + b) == e
    ensures Pick(newest, a) == e
  {
    if b == [] {
      assert a + b == a;
    } else {
      PickExtreme(newest, a);
      PickExtreme(newest, b);
      PickAppend(newest, a, b);
    }
  }

  lemma {:induction false} InPeriodMembers(index: int -> int, s: seq<Snapshot>, m: int)
    ensures forall x :: x in InPeriod(index, s, m) <==> x in s && index(x.time) == m
  {
    if s != [] {
      InPeriodMembers(index, s[1..], m);
      assert s == [s[0]] + s[1..];
    }
  }

  lemma {:induction false} InPeriodAppend(index: int -> int, a: seq<Snapshot>, b: seq<Snapshot>, m: int)
    ensures InPeriod(index, a + b, m) == InPeriod(index, a, m) + InPeriod(index, b, m)
  {
    if a == [] {
      assert a + b == b;
    } else {
      assert (a + b)[1..] == a[1..] + b;
      InPeriodAppend(index, a[1..], b, m);
      var head := if index(a[0].time) == m then [a[0]] else [];
      assert head + (InPeriod(index, a[1..], m) + InPeriod(index, b, m))
          == (head + InPeriod(index, a[1..], m)) + InPeriod(index, b, m);
    }
  }

  lemma {:induction false} InPeriodFilter(index: int -> int, s: seq<Snapshot>, keep: Snapshot -> bool, m: int)
    ensures InPeriod(index, Filter(s, keep), m) == Filter(InPeriod(index, s, m), keep)
  {
    if s != [] {
      InPeriodFilter(index, s[1..], keep, m);
      InPeriodAppend(index, if keep(s[0]) then [s[0]] else [], Filter(s[1..], keep), m);
      FilterAppend(if index(s[0].time) == m then [s[0]] else [], InPeriod(index, s[1..], m), keep);
    }
  }

  /** The snapshot picked in one period; ids are picked only this way. */
  lemma {:induction false} PickedWhen(rule: Rule, s: seq<Snapshot>, now: int, n: nat, id: string) returns (m: int)
    requires id in PickedIds(rule, s, now, n)
    ensures rule.index(now) - n < m <= rule.index(now)
    ensures InPeriod(rule.index, s, m) != [] && Pick(rule.newest, InPeriod(rule.index, s, m)).id == id
  {
    m := rule.index(now) - (n - 1);
    if id in PickedIds(rule, s, now, n - 1) {
      m := PickedWhen(rule, s, now, n - 1, id);
    }
  }

  lemma {:induction false} PickedIsIn(rule: Rule, s: seq<Snapshot>, now: int, n: nat, m: int)
    requires rule.index(now) - n < m <= rule.index(now) && InPeriod(rule.index, s, m) != []
    ensures Pick(rule.newest, InPeriod(rule.index, s, m)).id in PickedIds(rule, s, now, n)
  {
    if rule.index(now) - (n - 1) < m {
      PickedIsIn(rule, s, now, n - 1, m);
    }
  }

  /** An entry picked among more was picked among fewer. */
  lemma PickedEarlier(rule: Rule, s: seq<Snapshot>, n: seq<Snapshot>, m: int, e: Snapshot)
    requires DistinctIds(s + n) && e in s
    requires InPeriod(rule.index, s + n, m) != [] && Pick(rule.newest, InPeriod(rule.index, s + n, m)).id == e.id
    ensures rule.index(e.time) == m
    ensures InPeriod(rule.index, s, m) != [] && Pick(rule.newest, InPeriod(rule.index, s, m)) == e
  {
    PickExtreme(rule.newest, InPeriod(rule.index, s + n, m));
    InPeriodMembers(rule.index, s + n, m);
    SameIdSameSnapshot(s + n, Pick(rule.newest, InPeriod(rule.index, s + n, m)), e);
    InPeriodMembers(rule.index, s, m);
    InPeriodMembers(rule.index, n, m);
    InPeriodAppend(rule.index, s, n, m);
    NotInBoth(s, n, e);
    PickAmongFewer(rule.newest, InPeriod(rule.index, s, m), InPeriod(rule.index, n, m), e);
  }

  /** A snapshot that the rule does not pick now, among those of now, is not picked later among more. */
  lemma NeverPickedAgain(rule: Rule, s: seq<Snapshot>, n: seq<Snapshot>, now: int, later: int, e: Snapshot)
    requires Monotone(rule.index) && now <= later && e.time <= now
    requires DistinctIds(s + n) && e in s
    requires e.id !in PickedIds(rule, s, now, rule.count)
    ensures e.id !in PickedIds(rule, s + n, later, rule.count)
  {
    if e.id in PickedIds(rule, s + n, later, rule.count) {
      var m := PickedWhen(rule, s + n, later, rule.count, e.id);
      PickedEarlier(rule, s, n, m, e);
      PickedIsIn(rule, s, now, rule.count, m);
    }
  }

  lemma NotInBoth(s: seq<Snapshot>, n: seq<Snapshot>, e: Snapshot)
    requires DistinctIds(s + n) && e in s
    ensures forall x | x in n :: x.id != e.id
  {
    var i :| 0 <= i < |s| && s[i] == e;
    forall x | x in n ensures x.id != e.id {
      var j :| 0 <= j < |n| && n[j] == x;
      assert (s + n)[i] == e && (s + n)[|s| + j] == x;
    }
  }

  lemma WeeksAreMonotone()
    ensures Monotone(IsoWeek)
  {
  }

  lemma {:induction false} DailyMembers(s: seq<Snapshot>, now: int)
    ensures forall x | x in s && x.time >= now - RETENTION_DAILY * DAY :: x.id in DailyIds(s, now)
    ensures forall id | id in DailyIds(s, now) ::
      exists x :: x in s && x.id == id && x.time >= now - RETENTION_DAILY * DAY
  {
    if s != [] {
      var init, last := s[..|s| - 1], s[|s| - 1];
      DailyMembers(init, now);
      assert s == init + [last];
      forall id | id in DailyIds(s, now)
        ensures exists x :: x in s && x.id == id && x.time >= now - RETENTION_DAILY * DAY
      {
        if id in DailyIds(init, now) {
          var x :| x in init && x.id == id && x.time >= now - RETENTION_DAILY * DAY;
          assert x in s;
        } else {
          assert last in s;
        }
      }
    }
  }

  /** Whatever a run expires, no later run over any superset would protect. */
  lemma ExpiredStaysExpired(s: seq<Snapshot>, n: seq<Snapshot>, month: int -> int, now: int, later: int, e: Snapshot)
    requires Monotone(month) && now <= later && DistinctIds(s + n)
    requires e in s && e.id !in ProtectedIds(s, month, now)
    ensures e.id !in ProtectedIds(s + n, month, later)
  {
    DailyMembers(s, now);
    NeverPickedAgain(Monthly(month), s, n, now, later, e);
    WeeksAreMonotone();
    NeverPickedAgain(Weekly(), s, n, now, later, e);
    NotDaily(s + n, later, e);
  }

  lemma PeriodSurvives(rule: Rule, t: seq<Snapshot>, keep: Snapshot -> bool, m: int)
    requires forall x | x in t && x.id in PickedOf(rule, t, m) :: keep(x)
    ensures PickedOf(rule, Filter(t, keep), m) == PickedOf(rule, t, m)
  {
    var l := InPeriod(rule.index, t, m);
    InPeriodFilter(rule.index, t, keep, m);
    if l != [] {
      PickExtreme(rule.newest, l);
      InPeriodMembers(rule.index, t, m);
      PickFilter(rule.newest, l, keep);
    }
  }

  /** Dropping snapshots a rule does not pick leaves its picks unchanged. */
  lemma {:induction false} PicksSurvive(rule: Rule, t: seq<Snapshot>, keep: Snapshot -> bool, now: int, n: nat)
    requires forall x | x in t && x.id in PickedIds(rule, t, now, n) :: keep(x)
    ensures PickedIds(rule, Filter(t, keep), now, n) == PickedIds(rule, t, now, n)
  {
    if n > 0 {
      PicksSurvive(rule, t, keep, now, n - 1);
      PeriodSurvives(rule, t, keep, rule.index(now) - (n - 1));
    }
  }

  lemma DailySurvive(t: seq<Snapshot>, keep: Snapshot -> bool, now: int)
    requires forall x | x in t && x.id in DailyIds(t, now) :: keep(x)
    ensures DailyIds(Filter(t, keep), now) == DailyIds(t, now)
  {
    FilterMembers(t, keep);
    DailyMembers(t, now);
    DailyMembers(Filter(t, keep), now);
  }

  /** Dropping unprotected snapshots leaves the protected set unchanged. */
  lemma ProtectionSurvives(t: seq<Snapshot>, keep: Snapshot -> bool, month: int -> int, now: int)
    requires forall x | x in t && x.id in ProtectedIds(t, month, now) :: keep(x)
    ensures ProtectedIds(Filter(t, keep), month, now) == ProtectedIds(t, month, now)
  {
    PicksSurvive(Monthly(month), t, keep, now, RETENTION_MONTHLY);
    PicksSurvive(Weekly(), t, keep, now, RETENTION_WEEKLY);
    DailySurvive(t, keep, now);
  }

  function IdsOf(s: seq<Snapshot>): set<string> {
    set i: nat | i < |s| :: s[i].id
  }

  lemma IdsOfHas(s: seq<Snapshot>)
    ensures forall x | x in s :: x.id in IdsOf(s)
  {
    forall x | x in s ensures x.id in IdsOf(s) {
      var j :| 0 <= j < |s| && s[j] == x;
    }
  }

  /** What is left when the expired ones of `s` are purged now: the rest of `s`, and everything added later. */
  function SurvivesTest(s: seq<Snapshot>, n: seq<Snapshot>, month: int -> int, now: int): Snapshot -> bool {
    var ids, news := ProtectedIds(s, month, now), IdsOf(n);
    (x: Snapshot) => x.id in news || KeptTest(ids)(x)
  }

  lemma PurgedThenAdded(s: seq<Snapshot>, n: seq<Snapshot>, month: int -> int, now: int)
    requires DistinctIds(s + n)
    ensures Kept(s, month, now) + n == Filter(s + n, SurvivesTest(s, n, month, now))
  {
    var survives, kept := SurvivesTest(s, n, month, now), KeptTest(ProtectedIds(s, month, now));
    forall x | x in s ensures survives(x) == kept(x) {
      NotInBoth(s, n, x);
    }
    IdsOfHas(n);
    FilterSame(s, survives, kept);
    FilterAll(n, survives);
    FilterAppend(s, n, survives);
  }

  lemma PurgedUnprotected(s: seq<Snapshot>, n: seq<Snapshot>, month: int -> int, now: int, later: int, x: Snapshot)
    requires Monotone(month) && now <= later && DistinctIds(s + n)
    requires x in s + n && !SurvivesTest(s, n, month, now)(x)
    ensures x.id !in ProtectedIds(s + n, month, later) && x.estado == COMPLETED
  {
    var ids := ProtectedIds(s, month, now);
    assert x.id !in IdsOf(n) && !KeptTest(ids)(x);
    assert x.id !in ids && x.estado == COMPLETED;
    IdsOfHas(n);
    ExpiredStaysExpired(s, n, month, now, later, x);
  }

  /** Filtering out first what a test rejects anyway makes no difference to it. */
  lemma FilterFirst(t: seq<Snapshot>, keep: Snapshot -> bool, test: Snapshot -> bool)
    requires forall x | x in t && !keep(x) :: !test(x)
    ensures Filter(Filter(t, keep), test) == Filter(t, test)
  {
    FilterCommutes(t, keep, test);
    FilterMembers(t, test);
    FilterAll(Filter(t, test), keep);
  }

  /** Purging early loses nothing: dropping now's expired snapshots first, and adding any others afterwards,
      a later run keeps exactly what it would have kept of everything. */
  lemma PurgeCommutesWithTime(s: seq<Snapshot>, n: seq<Snapshot>, month: int -> int, now: int, later: int)
    requires Monotone(month) && now <= later && DistinctIds(s + n)
    ensures Kept(Kept(s, month, now) + n, month, later) == Kept(s + n, month, later)
  {
    var survives, laterIds := SurvivesTest(s, n, month, now), ProtectedIds(s + n, month, later);
    PurgedThenAdded(s, n, month, now);
    forall x | x in s + n && !survives(x) ensures x.id !in laterIds && x.estado == COMPLETED {
      PurgedUnprotected(s, n, month, now, later, x);
    }
    ProtectionSurvives(s + n, survives, month, later);
    FilterFirst(s + n, survives, KeptTest(laterIds));
  }

  /** Classifying what a run kept expires nothing more. */
  lemma Idempotent(s: seq<Snapshot>, month: int -> int, now: int)
    requires Monotone(month) && DistinctIds(s)
    ensures Kept(Kept(s, month, now), month, now) == Kept(s, month, now)
  {
    assert s + [] == s && Kept(s, month, now) + [] == Kept(s, month, now);
    PurgeCommutesWithTime(s, [], month, now, now);
  }

  /** A retention round: snapshots arrive, then everything is classified and the expired ones are purged. */
  datatype Round = Round(added: seq<Snapshot>, now: int)

  function AfterRounds(rounds: seq<Round>, month: int -> int): seq<Snapshot> {
    if rounds == [] then []
    else
      var last := rounds[|rounds| - 1];
      Kept(AfterRounds(rounds[..|rounds| - 1], month) + last.added, month, last.now)
  }

  function AllAdded(rounds: seq<Round>): seq<Snapshot> {
    if rounds == [] then [] else AllAdded(rounds[..|rounds| - 1]) + rounds[|rounds| - 1].added
  }

  /** Over any history, purging after every round leaves what one classification at the end would keep. */
  lemma {:induction false} PurgingEveryRound(rounds: seq<Round>, month: int -> int)
    requires Monotone(month) && DistinctIds(AllAdded(rounds)) && rounds != []
    requires forall i, j | 0 <= i < j < |rounds| :: rounds[i].now <= rounds[j].now
    ensures AfterRounds(rounds, month) == Kept(AllAdded(rounds), month, rounds[|rounds| - 1].now)
  {
    var before, last := rounds[..|rounds| - 1], rounds[|rounds| - 1];
    if before != [] {
      var all := AllAdded(before);
      forall i, j | 0 <= i < j < |all| ensures all[i].id != all[j].id {
        assert AllAdded(rounds)[i] == all[i] && AllAdded(rounds)[j] == all[j];
      }
      PurgingEveryRound(before, month);
      PurgeCommutesWithTime(all, last.added, month, before[|before| - 1].now, last.now);
    }
  }

  // ---------- how much is kept ----------

  lemma {:induction false} AtMostOnePerPeriod(rule: Rule, s: seq<Snapshot>, now: int, n: nat)
    ensures |PickedIds(rule, s, now, n)| <= n
  {
    if n > 0 {
      AtMostOnePerPeriod(rule, s, now, n - 1);
    }
  }

  function OldCompletedIds(s: seq<Snapshot>, cutoff: int): set<string> {
    set i: nat | i < |s| && s[i].estado == COMPLETED && s[i].time < cutoff :: s[i].id
  }

  lemma NotDaily(s: seq<Snapshot>, now: int, x: Snapshot)
    requires DistinctIds(s) && x in s && x.time < now - RETENTION_DAILY * DAY
    ensures x.id !in DailyIds(s, now)
  {
    DailyMembers(s, now);
    forall y | y in s && y.id == x.id ensures y == x {
      SameIdSameSnapshot(s, y, x);
    }
  }

  /** At most 12 + 4 completed snapshots older than a week are kept. */
  lemma KeptOldBound(s: seq<Snapshot>, month: int -> int, now: int)
    requires DistinctIds(s)
    ensures |OldCompletedIds(Kept(s, month, now), now - RETENTION_DAILY * DAY)| <= 16
  {
    var kept := Kept(s, month, now);
    var monthly := PickedIds(Monthly(month), s, now, RETENTION_MONTHLY);
    var weekly := PickedIds(Weekly(), s, now, RETENTION_WEEKLY);
    FilterMembers(s, KeptTest(ProtectedIds(s, month, now)));
    forall i: nat | i < |kept| && kept[i].estado == COMPLETED && kept[i].time < now - RETENTION_DAILY * DAY
      ensures kept[i].id in monthly + weekly
    {
      assert kept[i] in kept;
      NotDaily(s, now, kept[i]);
    }
    AtMostOnePerPeriod(Monthly(month), s, now, RETENTION_MONTHLY);
    AtMostOnePerPeriod(Weekly(), s, now, RETENTION_WEEKLY);
    SubsetSize(OldCompletedIds(kept, now - RETENTION_DAILY * DAY), monthly + weekly);
  }

  // ---------- which months keep a completed snapshot ----------

  /** The rule picks this snapshot: it is the oldest or newest of its period, in whatever state, and within reach. */
  predicate IsPick(rule: Rule, s: seq<Snapshot>, now: int, e: Snapshot) {
    var m := rule.index(e.time);
    && rule.index(now) - rule.count < m <= rule.index(now)
    && InPeriod(rule.index, s, m) != [] && Pick(rule.newest, InPeriod(rule.index, s, m)) == e
  }

  lemma PickedIff(rule: Rule, s: seq<Snapshot>, now: int, e: Snapshot)
    requires DistinctIds(s) && e in s
    ensures e.id in PickedIds(rule, s, now, rule.count) <==> IsPick(rule, s, now, e)
  {
    if e.id in PickedIds(rule, s, now, rule.count) {
      var m := PickedWhen(rule, s, now, rule.count, e.id);
      assert s + [] == s;
      PickedEarlier(rule, s, [], m, e);
    }
    if IsPick(rule, s, now, e) {
      PickedIsIn(rule, s, now, rule.count, rule.index(e.time));
    }
  }

  /** A snapshot is protected for one of three reasons. */
  predicate Protected(s: seq<Snapshot>, month: int -> int, now: int, e: Snapshot) {
    IsPick(Monthly(month), s, now, e) || IsPick(Weekly(), s, now, e) || e.time >= now - RETENTION_DAILY * DAY
  }

  lemma ProtectedIff(s: seq<Snapshot>, month: int -> int, now: int, e: Snapshot)
    requires DistinctIds(s) && e in s
    ensures e.id in ProtectedIds(s, month, now) <==> Protected(s, month, now, e)
  {
    PickedIff(Monthly(month), s, now, e);
    PickedIff(Weekly(), s, now, e);
    if e.time >= now - RETENTION_DAILY * DAY {
      DailyMembers(s, now);
    } else {
      NotDaily(s, now, e);
    }
  }

  predicate CompletedIn(s: seq<Snapshot>, index: int -> int, m: int, x: Snapshot) {
    x in s && x.estado == COMPLETED && index(x.time) == m
  }

  /** Which COMPLETED snapshots of a calendar period, month or week, are kept. */
  lemma CompletedKeptIff(s: seq<Snapshot>, month: int -> int, now: int, index: int -> int, m: int, x: Snapshot)
    requires DistinctIds(s)
    ensures CompletedIn(Kept(s, month, now), index, m, x) <==>
      CompletedIn(s, index, m, x) && Protected(s, month, now, x)
  {
    FilterMembers(s, KeptTest(ProtectedIds(s, month, now)));
    if x in s {
      ProtectedIff(s, month, now, x);
    }
  }

  /**
   * A month keeps a COMPLETED snapshot exactly when its oldest snapshot, in whatever state, is COMPLETED, or another
   * COMPLETED one of it is kept for its week or as one of the last seven days.
   */
  lemma MonthKeepsOneIff(s: seq<Snapshot>, month: int -> int, now: int, m: int)
    requires DistinctIds(s) && month(now) - RETENTION_MONTHLY < m <= month(now)
    ensures (exists x :: CompletedIn(Kept(s, month, now), month, m, x)) <==>
      ((InPeriod(month, s, m) != [] && Pick(false, InPeriod(month, s, m)).estado == COMPLETED)
       || exists x ::
            CompletedIn(s, month, m, x) && (IsPick(Weekly(), s, now, x) || x.time >= now - RETENTION_DAILY * DAY))
  {
    InPeriodMembers(month, s, m);
    if x :| CompletedIn(Kept(s, month, now), month, m, x) {
      CompletedKeptIff(s, month, now, month, m, x);
    }
    if InPeriod(month, s, m) != [] && Pick(false, InPeriod(month, s, m)).estado == COMPLETED {
      var oldest := Pick(false, InPeriod(month, s, m));
      PickExtreme(false, InPeriod(month, s, m));
      CompletedKeptIff(s, month, now, month, m, oldest);
    }
    if x :| CompletedIn(s, month, m, x) && (IsPick(Weekly(), s, now, x) || x.time >= now - RETENTION_DAILY * DAY) {
      CompletedKeptIff(s, month, now, month, m, x);
    }
  }

  /**
   * Of a month that the four weeks and the seven days no longer reach, a COMPLETED snapshot is kept exactly when the
   * oldest snapshot of that month, in whatever state, is COMPLETED: a FAILED one in that place costs the month.
   */
  lemma OldMonthKeepsOneIff(s: seq<Snapshot>, month: int -> int, now: int, m: int)
    requires DistinctIds(s) && month(now) - RETENTION_MONTHLY < m <= month(now) && InPeriod(month, s, m) != []
    requires forall x | x in s && month(x.time) == m ::
      x.time < now - RETENTION_DAILY * DAY && IsoWeek(x.time) <= IsoWeek(now) - RETENTION_WEEKLY
    ensures (exists x :: CompletedIn(Kept(s, month, now), month, m, x)) <==>
      Pick(false, InPeriod(month, s, m)).estado == COMPLETED
  {
    MonthKeepsOneIff(s, month, now, m);
  }

  /**
   * A week of the last four keeps a COMPLETED snapshot exactly when its newest snapshot, in whatever state, is
   * COMPLETED, or another COMPLETED one of it is kept for its month or as one of the last seven days.
   */
  lemma WeekKeepsOneIff(s: seq<Snapshot>, month: int -> int, now: int, w: int)
    requires DistinctIds(s) && IsoWeek(now) - RETENTION_WEEKLY < w <= IsoWeek(now)
    ensures (exists x :: CompletedIn(Kept(s, month, now), IsoWeek, w, x)) <==>
      ((InPeriod(IsoWeek, s, w) != [] && Pick(true, InPeriod(IsoWeek, s, w)).estado == COMPLETED)
       || exists x ::
            && CompletedIn(s, IsoWeek, w, x)
            && (IsPick(Monthly(month), s, now, x) || x.time >= now - RETENTION_DAILY * DAY))
  {
    InPeriodMembers(IsoWeek, s, w);
    if x :| CompletedIn(Kept(s, month, now), IsoWeek, w, x) {
      CompletedKeptIff(s, month, now, IsoWeek, w, x);
    }
    if InPeriod(IsoWeek, s, w) != [] && Pick(true, InPeriod(IsoWeek, s, w)).estado == COMPLETED {
      var newest := Pick(true, InPeriod(IsoWeek, s, w));
      PickExtreme(true, InPeriod(IsoWeek, s, w));
      CompletedKeptIff(s, month, now, IsoWeek, w, newest);
    }
    if x :|
      && CompletedIn(s, IsoWeek, w, x)
      && (IsPick(Monthly(month), s, now, x) || x.time >= now - RETENTION_DAILY * DAY)
    {
      CompletedKeptIff(s, month, now, IsoWeek, w, x);
    }
  }

  /**
   * Of a week that the seven days no longer reach and that holds no snapshot picked for its month, a COMPLETED one is
   * kept exactly when the newest snapshot of the week, in whatever state, is COMPLETED.
   */
  lemma OldWeekKeepsOneIff(s: seq<Snapshot>, month: int -> int, now: int, w: int)
    requires DistinctIds(s) && IsoWeek(now) - RETENTION_WEEKLY < w <= IsoWeek(now) && InPeriod(IsoWeek, s, w) != []
    requires forall x | x in s && IsoWeek(x.time) == w ::
      x.time < now - RETENTION_DAILY * DAY && !IsPick(Monthly(month), s, now, x)
    ensures (exists x :: CompletedIn(Kept(s, month, now), IsoWeek, w, x)) <==>
      Pick(true, InPeriod(IsoWeek, s, w)).estado == COMPLETED
  {
    WeekKeepsOneIff(s, month, now, w);
  }

  // ---------- which snapshots are protected, by the calendar ----------

  /** Monday 00:00 of the week of t. Day 0 is a Thursday, so day 4 is a Monday. */
  function Monday(t: int): int {
    var day := t / 86_400_000_000;
    (day - (day - 4) % 7) * 86_400_000_000
  }

  lemma WeekStart(day: int)
    ensures (day + 3) / 7 * 7 - 3 == day - (day - 4) % 7
  {
  }

  lemma DaysAndWeeks(t: int)
    ensures (t + 3 * 86_400_000_000) / (7 * 86_400_000_000) == (t / 86_400_000_000 + 3) / 7
  {
  }

  /** The index of a week is the number of its Monday. */
  lemma MondayIs(t: int)
    ensures Monday(t) == (7 * IsoWeek(t) - 3) * 86_400_000_000
    ensures Monday(t) <= t < Monday(t) + 7 * 86_400_000_000
  {
    DaysAndWeeks(t);
    WeekStart(t / 86_400_000_000);
  }

  /** Two times lie in the same week iff they follow the same Monday; k weeks apart means 7k days between these. */
  lemma SameWeekIff(t: int, u: int)
    ensures IsoWeek(t) == IsoWeek(u) <==> Monday(t) == Monday(u)
    ensures Monday(u) - Monday(t) == (IsoWeek(u) - IsoWeek(t)) * 7 * 86_400_000_000
  {
    MondayIs(t);
    MondayIs(u);
  }

  /** Nothing in the month of s[i] is older; of equally old ones it is listed first. The month is one of the last 12. */
  predicate FirstOfMonth(s: seq<Snapshot>, month: int -> int, now: int, i: nat)
    requires i < |s|
  {
    && month(now) - 12 < month(s[i].time) <= month(now)
    && forall j | 0 <= j < |s| && month(s[j].time) == month(s[i].time) ::
         s[i].time < s[j].time || (s[i].time == s[j].time && i <= j)
  }

  /** Nothing in the Monday-to-Sunday week of s[i] is newer; of equally new ones it is listed last. The week is the one
      of now or one of the three before. */
  predicate LastOfWeek(s: seq<Snapshot>, now: int, i: nat)
    requires i < |s|
  {
    && Monday(now) - 21 * 86_400_000_000 <= Monday(s[i].time) <= Monday(now)
    && forall j | 0 <= j < |s| && Monday(s[j].time) == Monday(s[i].time) ::
         s[j].time < s[i].time || (s[j].time == s[i].time && j <= i)
  }

  /** In its period s[i] comes last, or first, by time and then by position. */
  predicate Extreme(newest: bool, index: int -> int, s: seq<Snapshot>, m: int, i: nat)
    requires i < |s|
  {
    && index(s[i].time) == m
    && forall j | 0 <= j < |s| && index(s[j].time) == m ::
         if newest then s[j].time < s[i].time || (s[j].time == s[i].time && j <= i)
         else s[i].time < s[j].time || (s[i].time == s[j].time && i <= j)
  }

  lemma ExtremeCons(newest: bool, index: int -> int, s: seq<Snapshot>, m: int, k: nat)
    requires k + 1 < |s| && Extreme(newest, index, s[1..], m, k)
    ensures index(s[0].time) != m || newest == (s[0].time <= s[k + 1].time) ==> Extreme(newest, index, s, m, k + 1)
    ensures index(s[0].time) == m && newest != (s[0].time <= s[k + 1].time) ==> Extreme(newest, index, s, m, 0)
  {
    forall j | 1 <= j < |s| ensures s[j] == s[1..][j - 1] {
    }
  }

  lemma {:induction false} PickIsExtreme(newest: bool, index: int -> int, s: seq<Snapshot>, m: int) returns (i: nat)
    requires InPeriod(index, s, m) != []
    ensures i < |s| && Extreme(newest, index, s, m, i) && Pick(newest, InPeriod(index, s, m)) == s[i]
  {
    var rest := InPeriod(index, s[1..], m);
    InPeriodMembers(index, s[1..], m);
    if rest == [] {
      assert InPeriod(index, s, m) == [s[0]];
      PickStep(newest, [s[0]]);
      i := 0;
      forall j | 1 <= j < |s| ensures index(s[j].time) != m {
        assert s[j] in s[1..];
      }
    } else {
      var k := PickIsExtreme(newest, index, s[1..], m);
      ExtremeCons(newest, index, s, m, k);
      i := k + 1;
      if index(s[0].time) == m {
        assert InPeriod(index, s, m) == [s[0]] + rest;
        PickCons(newest, s[0], rest);
        i := if newest == (s[0].time <= s[k + 1].time) then k + 1 else 0;
      } else {
        assert InPeriod(index, s, m) == [] + rest == rest;
      }
    }
  }

  lemma IsPickIff(rule: Rule, s: seq<Snapshot>, now: int, i: nat)
    requires DistinctIds(s) && i < |s|
    ensures IsPick(rule, s, now, s[i]) <==>
      && rule.index(now) - rule.count < rule.index(s[i].time) <= rule.index(now)
      && Extreme(rule.newest, rule.index, s, rule.index(s[i].time), i)
  {
    var m := rule.index(s[i].time);
    InPeriodMembers(rule.index, s, m);
    assert s[i] in s;
    var k := PickIsExtreme(rule.newest, rule.index, s, m);
  }

  /**
   * Protection, by the calendar alone: a snapshot is protected exactly when it is the first of its month, this one or
   * one of the eleven before, or the last of its Monday-to-Sunday week, this one or one of the three before, or at
   * most seven days old.
   */
  lemma ProtectedByCalendar(s: seq<Snapshot>, month: int -> int, now: int, i: nat)
    requires DistinctIds(s) && i < |s|
    ensures s[i].id in ProtectedIds(s, month, now) <==>
      FirstOfMonth(s, month, now, i) || LastOfWeek(s, now, i) || s[i].time >= now - 7 * 86_400_000_000
  {
    assert s[i] in s;
    ProtectedIff(s, month, now, s[i]);
    IsPickIff(Monthly(month), s, now, i);
    IsPickIff(Weekly(), s, now, i);
    SameWeekIff(s[i].time, now);
    forall j | 0 <= j < |s|
      ensures IsoWeek(s[j].time) == IsoWeek(s[i].time) <==> Monday(s[j].time) == Monday(s[i].time)
    {
      SameWeekIff(s[j].time, s[i].time);
    }
  }
}
