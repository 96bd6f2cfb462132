/**
 Samples that show less than the meters hold: one meter's command failed. What is
 billed twice after them, exactly when, and concrete runs.
 */
module MeteringDips {
  import opened Metering
  import opened MeteringRuns
  import opened MeteringPairs

  // ---------- Exactly when bytes are billed again ----------

  /** From `r` to `t` the pair is billed at most what passed since its mark, replays apart. */
  predicate Within(r: Run, t: Run, p: Pair) {
    OfPair(t.ledger, p.0, p.1) - OfPair(r.ledger, p.0, p.1)
      <= Amount(t.passed, p.1) - From(r, p) + OfPair(t.replayed, p.0, p.1) - OfPair(r.replayed, p.0, p.1)
  }

  /** So it is on every continuation that reads both meters of the VIP. */
  ghost predicate SafeFrom(r: Run, p: Pair) {
    forall es :: Listed(es) && ReadsBoth(es, p.1) ==> Within(r, Steps(r, es), p)
  }

  /** `room` covers what the pair's baseline has left to bill. */
  predicate Fits(r: Run, p: Pair, room: int) {
    room >= 0 && (KeyOf(p) in r.books.sidecar ==> Grown(Total(r, p.1), r.books.sidecar[KeyOf(p)]) <= room)
  }

  /** What is left of `room` after bytes passed and bills were made. */
  function Left(r: Run, t: Run, p: Pair, room: int): int {
    room + Amount(t.passed, p.1) - Amount(r.passed, p.1)
      - (OfPair(t.ledger, p.0, p.1) - OfPair(r.ledger, p.0, p.1))
      + (OfPair(t.replayed, p.0, p.1) - OfPair(r.replayed, p.0, p.1))
  }

  lemma SettledFits(r: Run, e: Event, p: Pair, room: int)
    requires Settles(r, e) && DistinctVips(e.leases) && ReadsBoth([e], p.1) && Fits(r, p, room)
    ensures Fits(Step(r, e), p, Left(r, Step(r, e), p, room))
  {
    hide Step, Served, Held, SampleOf, Meters, KeyOf, Dip, OfPair, Total, DistinctVips;
    assert [e][0] == e;
    IterationBillsExactly(r, e, p);
    SampleShows(r, e, p.1);
    SameMeters(r, Step(r, e), p.1);
  }

  lemma ReplayableFits(r: Run, s: Sample, p: Pair, room: int)
    requires Fits(r, p, room)
    ensures Fits(Replayable(r, s), p, Left(r, Replayable(r, s), p, room))
  {
    hide Bills, Charge, OfPair, KeyOf;
    SumsJoin(r.ledger, Bills(s, r.books.sidecar, |s.leases|), p.0, p.1);
    SumsJoin(r.replayed, Bills(s, r.books.sidecar, |s.leases|), p.0, p.1);
  }

  lemma StepFits(r: Run, e: Event, p: Pair, room: int)
    requires Fits(r, p, room) && (e.Iteration? ==> DistinctVips(e.leases)) && ReadsBoth([e], p.1)
    ensures Fits(Step(r, e), p, Left(r, Step(r, e), p, room))
  {
    hide Step, SampleOf, Settled, Replayable, KeyOf, OfPair, Total, DistinctVips, Meters;
    if e.Iteration? {
      var s := SampleOf(r, e);
      StepOnBooks(r, e);
      ReplayableFits(r, s, p, room);
      if Settles(r, e) {
        SettledFits(r, e, p, room);
      }
      SameMeters(r, Cleared(r), p.1);
    } else {
      StepOnMeters(r, e, p.1);
    }
  }

  lemma {:induction false} StepsFit(r: Run, es: seq<Event>, p: Pair, room: int)
    requires Fits(r, p, room) && Listed(es) && ReadsBoth(es, p.1)
    ensures Fits(Steps(r, es), p, Left(r, Steps(r, es), p, room))
    decreases |es|
  {
    hide Step, OfPair, KeyOf, Fits;
    if es == [] {
      assert Left(r, r, p, room) == room;
    } else {
      assert [es[0]][0] == es[0];
      var q := Step(r, es[0]);
      StepFits(r, es[0], p, room);
      StepsFit(q, es[1..], p, Left(r, q, p, room));
      var t := Steps(q, es[1..]);
      assert Left(q, t, p, Left(r, q, p, room)) == Left(r, t, p, room);
    }
  }

  lemma FitsRoom(r: Run, p: Pair, room: int)
    requires Fits(r, p, room)
    ensures room >= 0
  {
  }

  /** An iteration that serves the pair and reads both meters. */
  function Serving(p: Pair): Event {
    Iteration([Lease(p.1, "x")], map["x" := Customer(p.0, false, true)], {}, map[], {}, Finishes)
  }

  lemma ServingBills(r: Run, p: Pair)
    requires KeyOf(p) in r.books.sidecar && Total(r, p.1) > 0
    ensures var q := Step(r, Serving(p));
      && OfPair(q.ledger, p.0, p.1) - OfPair(r.ledger, p.0, p.1) == Grown(Total(r, p.1), r.books.sidecar[KeyOf(p)])
      && q.replayed == r.replayed && q.passed == r.passed
  {
    hide Step, SampleOf, KeyOf, Dip, OfPair, Total;
    var e := Serving(p);
    var s := SampleOf(r, e);
    SampleShows(r, e, p.1);
    assert Serves(s, 0, p);
    assert Served(s, |s.leases|, p);
    ServedMeters(s, p);
    IterationBillsExactly(r, e, p);
  }

  /**
   From a point of a run where the pair has a mark: it is billed within what passes
   since that mark on every continuation that reads both meters, if and only if
   the meters have grown beyond its saved baseline by no more than what passed. While
   its VIP loses no entry, that is so if and only if the marked sample showed all
   that the meters held.
   */
  lemma SafeExactly(r: Run, p: Pair)
    requires Tracked(r) && p in r.watch
    ensures KeyOf(p) in r.books.sidecar
    ensures SafeFrom(r, p) <==> Grown(Total(r, p.1), r.books.sidecar[KeyOf(p)]) <= Amount(r.passed, p.1) - r.watch[p].passed
    ensures p.1 !in r.resets ==> (SafeFrom(r, p) <==> r.watch[p].dip == 0)
  {
    hide Steps, Step, KeyOf, OfPair, Total;
    assert Tracks(r, p);
    var room := Amount(r.passed, p.1) - r.watch[p].passed;
    if Grown(Total(r, p.1), r.books.sidecar[KeyOf(p)]) <= room {
      forall es | Listed(es) && ReadsBoth(es, p.1) ensures Within(r, Steps(r, es), p) {
        StepsFit(r, es, p, room);
        FitsRoom(Steps(r, es), p, Left(r, Steps(r, es), p, room));
      }
    } else {
      var es := [Serving(p)];
      OneStep(r, Serving(p));
      ServingBills(r, p);
      assert Listed(es) && ReadsBoth(es, p.1);
      assert !Within(r, Steps(r, es), p);
    }
  }

  lemma OneStep(r: Run, e: Event)
    ensures Steps(r, [e]) == Step(r, e)
  {
    hide Step;
    assert [e][1..] == [];
    assert Steps(Step(r, e), []) == Step(r, e);
  }

  lemma {:induction false} NoResetNoResets(r: Run, es: seq<Event>, v: string)
    requires NoReset(es, v) && v !in r.resets
    ensures v !in Steps(r, es).resets
    decreases |es|
  {
    hide Step;
    if es != [] {
      StepResets(r, es[0], v);
      NoResetNoResets(Step(r, es[0]), es[1..], v);
    }
  }

  lemma StepResets(r: Run, e: Event, v: string)
    requires v !in r.resets && !(e.Reset? && e.vip == v)
    ensures v !in Step(r, e).resets
  {
    hide SampleOf, Bills, Charge, Notes, Totals, Watched, Firsts;
  }

  /**
   On every run in which a pair's VIP loses no entry: no point of it is followed by
   a continuation that bills the pair bytes again, replays apart, if and only if
   none of the pair's saved samples showed less than the meters held.
   */
  lemma NeverBilledAgainExactly(used: map<int, int>, es: seq<Event>, p: Pair)
    requires NoReset(es, p.1)
    ensures (forall n :: 0 <= n <= |es| && p in Steps(Start(used), es[..n]).watch ==> SafeFrom(Steps(Start(used), es[..n]), p))
       <==> (forall n :: 0 <= n <= |es| && p in Steps(Start(used), es[..n]).watch ==> Steps(Start(used), es[..n]).watch[p].dip == 0)
  {
    hide Steps, SafeFrom, Tracked;
    forall n | 0 <= n <= |es| && p in Steps(Start(used), es[..n]).watch
      ensures SafeFrom(Steps(Start(used), es[..n]), p) <==> Steps(Start(used), es[..n]).watch[p].dip == 0
    {
      StartIsTracked(used);
      StepsTrack(Start(used), es[..n]);
      NoResetNoResets(Start(used), es[..n], p.1);
      SafeExactly(Steps(Start(used), es[..n]), p);
    }
  }

  lemma StartIsTracked(used: map<int, int>)
    ensures Tracked(Start(used))
  {
  }

  // ---------- Concrete runs ----------

  const IDENTITY := "a-phone"
  const VIP := "10.99.0.2"

  /** An iteration that lists one lease of customer 1; `half` if the second meter's command fails. */
  function Listing(active: bool, half: bool): Event {
    Iteration([Lease(VIP, IDENTITY)], map[IDENTITY := Customer(1, false, active)], {}, map[],
      if half then {VIP} else {}, Finishes)
  }

  /** What such an iteration bills and saves. */
  lemma ListingDoes(r: Run, active: bool, half: bool)
    requires VIP in r.src
    ensures var e, p, shown := Listing(active, half), (1, VIP), if half then r.src[VIP] else Total(r, VIP);
      var q := Step(r, e);
      && q.src == r.src && q.dst == r.dst && q.passed == r.passed
      && KeyOf(p) in q.books.sidecar && q.books.sidecar[KeyOf(p)] == shown
      && OfPair(q.ledger, 1, VIP) == OfPair(r.ledger, 1, VIP)
           + (if active && KeyOf(p) in r.books.sidecar then Grown(shown, r.books.sidecar[KeyOf(p)]) else 0)
  {
    hide Step, KeyOf, OfPair, Dip;
    var e, p: Pair := Listing(active, half), (1, VIP);
    var s := SampleOf(r, e);
    assert s.leases == [Lease(VIP, IDENTITY)];
    assert VIP in s.counters && s.counters[VIP] == if half then r.src[VIP] else Total(r, VIP);
    assert Holds(s, 0, p);
    assert Held(s, |s.leases|, p) && (Served(s, |s.leases|, p) <==> active) by {
      assert Serves(s, 0, p) <==> active;
    }
    assert Settles(r, e);
    IterationBillsExactly(r, e, p);
  }

  lemma StepsOn(r: Run, es: seq<Event>, e: Event)
    ensures Steps(r, es + [e]) == Step(Steps(r, es), e)
    decreases |es|
  {
    hide Step;
    if es == [] {
      assert es + [e] == [e];
      OneStep(r, e);
    } else {
      assert (es + [e])[1..] == es[1..] + [e];
      StepsOn(Step(r, es[0]), es[1..], e);
    }
  }

  lemma Passes(r: Run, d: Direction, n: nat)
    ensures var q := Step(r, Traffic(d, VIP, n));
      && q.books == r.books && q.ledger == r.ledger
      && Amount(q.passed, VIP) == Amount(r.passed, VIP) + n
      && q.src == (if d.Src? then r.src[VIP := Amount(r.src, VIP) + n] else r.src)
      && q.dst == (if d.Dst? then r.dst[VIP := Amount(r.dst, VIP) + n] else r.dst)
  {
  }

  /**
   Bytes that move while a customer is inactive can be billed: five bytes, an
   iteration that finds the customer inactive, a hundred bytes, and the first
   iteration after reactivation bills the hundred.
   */
  lemma InactiveBytesCanBeBilled(used: map<int, int>)
    ensures var es := [Traffic(Src, VIP, 5), Listing(false, false), Traffic(Src, VIP, 100), Listing(true, false)];
      OfPair(Steps(Start(used), es).ledger, 1, VIP) == 100
  {
    hide Step, Steps, KeyOf, OfPair;
    var r0 := Start(used);
    var r1 := Step(r0, Traffic(Src, VIP, 5));
    var r2 := Step(r1, Listing(false, false));
    var r3 := Step(r2, Traffic(Src, VIP, 100));
    Passes(r0, Src, 5);
    ListingDoes(r1, false, false);
    Passes(r2, Src, 100);
    ListingDoes(r3, true, false);
    NoBills(1, VIP);
    Four(r0, Traffic(Src, VIP, 5), Listing(false, false), Traffic(Src, VIP, 100), Listing(true, false));
  }

  lemma Four(r: Run, a: Event, b: Event, c: Event, d: Event)
    ensures Steps(r, [a, b, c, d]) == Step(Step(Step(Step(r, a), b), c), d)
  {
    hide Step, Steps;
    OneStep(r, a);
    StepsOn(r, [a], b);
    StepsOn(r, [a, b], c);
    StepsOn(r, [a, b, c], d);
    assert [a] + [b] == [a, b] && [a, b] + [c] == [a, b, c] && [a, b, c] + [d] == [a, b, c, d];
  }

  /**
   A thousand bytes each way, a full sample, one in which the second meter's command
   fails, and a full one: nothing has passed since the first sample, and a thousand
   bytes are billed.
   */
  lemma HalfSampleBillsAgain(used: map<int, int>)
    ensures var es := [Traffic(Src, VIP, 1000), Traffic(Dst, VIP, 1000), Listing(true, false), Listing(true, true)];
      var mid, t := Steps(Start(used), es[..3]), Steps(Start(used), es + [Listing(true, false)]);
      && Amount(t.passed, VIP) == Amount(mid.passed, VIP) == 2000
      && OfPair(mid.ledger, 1, VIP) == 0 && OfPair(t.ledger, 1, VIP) == 1000
  {
    hide Step, Steps, KeyOf, OfPair;
    var full, half := Listing(true, false), Listing(true, true);
    var r0 := Start(used);
    var r1 := Step(r0, Traffic(Src, VIP, 1000));
    var r2 := Step(r1, Traffic(Dst, VIP, 1000));
    var r3 := Step(r2, full);
    var r4 := Step(r3, half);
    Passes(r0, Src, 1000);
    Passes(r1, Dst, 1000);
    NothingSaved(used);
    ListingDoes(r2, true, false);
    ListingDoes(r3, true, true);
    ListingDoes(r4, true, false);
    NoBills(1, VIP);
    var es := [Traffic(Src, VIP, 1000), Traffic(Dst, VIP, 1000), full, half];
    Four(r0, es[0], es[1], full, half);
    StepsOn(r0, es, full);
    assert es[..3] + [half] == es;
    OneStep(r0, es[0]);
    StepsOn(r0, [es[0]], es[1]);
    StepsOn(r0, [es[0], es[1]], full);
    assert [es[0]] + [es[1]] == [es[0], es[1]] && [es[0], es[1]] + [full] == es[..3];
  }

  lemma NothingSaved(used: map<int, int>)
    ensures Start(used).books.sidecar == map[]
  {
  }
}
