/** One (customer, VIP) pair over time: which bytes it is billed, inactive spells and handovers included. */
module MeteringPairs {
  import opened Metering
  import opened MeteringRuns

  // ---------- What one listing does to a pair ----------

  /** Lease `i` samples `p`, whatever the status of its customer. */
  predicate Holds(s: Sample, i: nat, p: Pair)
    requires i < |s.leases|
  {
    var l := s.leases[i];
    l.vip == p.1 && Metered(s, l) && s.customers[l.identity].id == p.0
  }

  /** It samples `p` with a billable customer. */
  predicate Serves(s: Sample, i: nat, p: Pair)
    requires i < |s.leases|
  {
    Holds(s, i, p) && Billable(s.customers[s.leases[i].identity])
  }

  ghost predicate Held(s: Sample, n: nat, p: Pair)
    requires n <= |s.leases|
  {
    exists i :: 0 <= i < n && Holds(s, i, p)
  }

  ghost predicate Served(s: Sample, n: nat, p: Pair)
    requires n <= |s.leases|
  {
    exists i :: 0 <= i < n && Serves(s, i, p)
  }

  lemma BillOfLease(s: Sample, last: map<string, nat>, i: nat, p: Pair)
    requires i < |s.leases|
    ensures OfPair(BillOf(s, last, i), p.0, p.1)
         == if Serves(s, i, p) && KeyOf(p) in last then Grown(s.counters[p.1], last[KeyOf(p)]) else 0
  {
    hide SidecarKey;
    var bill := BillOf(s, last, i);
    if bill != [] {
      OneBill(bill[0], p.0, p.1);
    }
  }

  lemma NoteOfLease(account: Account, r: Run, s: Sample, i: nat, p: Pair)
    requires i < |s.leases|
    ensures OfPair(NoteOf(account, r, s, i), p.0, p.1)
         == if Serves(s, i, p) && p in r.watch then AmountOf(account, r, s, p) else 0
  {
    hide AmountOf;
    var note := NoteOf(account, r, s, i);
    if note != [] {
      OneBill(note[0], p.0, p.1);
    }
  }

  lemma ServesOnce(s: Sample, i: nat, j: nat, p: Pair)
    requires DistinctVips(s.leases) && i < j < |s.leases| && Serves(s, i, p)
    ensures !Serves(s, j, p)
  {
    assert s.leases[i].vip != s.leases[j].vip;
  }

  lemma OneMoreServed(s: Sample, n: nat, p: Pair)
    requires n < |s.leases| && DistinctVips(s.leases)
    ensures Served(s, n + 1, p) <==> Served(s, n, p) || Serves(s, n, p)
    ensures !(Served(s, n, p) && Serves(s, n, p))
  {
    hide Serves, DistinctVips;
    if Served(s, n, p) {
      var i :| 0 <= i < n && Serves(s, i, p);
      ServesOnce(s, i, n, p);
    }
  }

  /** A listing bills a pair once, for the lease that serves it and from its saved
      baseline, or not at all. */
  lemma {:induction false} BillsOfPair(s: Sample, last: map<string, nat>, n: nat, p: Pair)
    requires n <= |s.leases| && DistinctVips(s.leases)
    ensures Served(s, n, p) ==> p.1 in s.counters
    ensures OfPair(Bills(s, last, n), p.0, p.1)
         == if Served(s, n, p) && KeyOf(p) in last then Grown(s.counters[p.1], last[KeyOf(p)]) else 0
    decreases n
  {
    hide Bills, OfPair, Served, KeyOf, Grown, BillOf, DistinctVips;
    if n == 0 {
      NobodyServed(s, p);
      NoBills(p.0, p.1);
      NothingBilled(s, last);
    } else {
      BillsOfPair(s, last, n - 1, p);
      OneMoreServed(s, n - 1, p);
      BillOfLease(s, last, n - 1, p);
      BillsGrow(s, last, n - 1, p.0, p.1);
    }
  }

  lemma NothingBilled(s: Sample, last: map<string, nat>)
    ensures Bills(s, last, 0) == []
  {
  }

  /** Its notes likewise. */
  lemma {:induction false} NotesOfPair(account: Account, r: Run, s: Sample, n: nat, p: Pair)
    requires n <= |s.leases| && DistinctVips(s.leases)
    ensures OfPair(Notes(account, r, s, n), p.0, p.1)
         == if Served(s, n, p) && p in r.watch then AmountOf(account, r, s, p) else 0
    decreases n
  {
    hide Notes, OfPair, OfVip, Served, NoteOf, AmountOf, DistinctVips;
    if n == 0 {
      NobodyServed(s, p);
      NothingSampled(account, r, s, r.books.sidecar, p.0, p.1);
    } else {
      NotesOfPair(account, r, s, n - 1, p);
      OneMoreServed(s, n - 1, p);
      NoteOfLease(account, r, s, n - 1, p);
      NotesGrow(account, r, s, n - 1, p.0, p.1);
    }
  }

  lemma NobodyServed(s: Sample, p: Pair)
    ensures !Served(s, 0, p)
  {
  }

  /** A sampled pair is marked, whatever its customer's status. */
  lemma {:induction false} HeldIsWatched(r: Run, s: Sample, n: nat, p: Pair)
    requires n <= |s.leases|
    ensures Held(s, n, p) ==> p in Watched(r, s, n)
  {
    hide Dip;
    if n > 0 {
      HeldIsWatched(r, s, n - 1, p);
    }
  }

  lemma ServedIsHeld(s: Sample, n: nat, p: Pair)
    requires n <= |s.leases|
    ensures Served(s, n, p) ==> Held(s, n, p)
  {
  }

  // ---------- One iteration, exactly ----------

  /** An iteration that finishes and has leases and meters to sample. */
  predicate Settles(r: Run, e: Event) {
    e.Iteration? && e.fate.Finishes? && Meters(SampleOf(r, e))
  }

  lemma SettlesIsSettled(r: Run, e: Event)
    requires Settles(r, e)
    ensures Step(r, e) == Settled(r, SampleOf(r, e))
  {
    hide SampleOf, Settled;
    StepOnBooks(r, e);
    SampleShows(r, e, "");
  }

  /**
   What a finished iteration does to a pair, exactly: it bills the growth of what
   its sample shows beyond the saved baseline if it serves the pair and a baseline
   was saved, and nothing otherwise; and a pair it samples, billable or not, has
   what the sample shows as its baseline, and as its mark everything passed so far
   with what the sample does not show as its dip.
   */
  lemma IterationBillsExactly(r: Run, e: Event, p: Pair)
    requires Settles(r, e) && DistinctVips(e.leases)
    ensures var s := SampleOf(r, e);
      var q := Step(r, e);
      && |s.leases| == |e.leases|
      && (Served(s, |s.leases|, p) ==> p.1 in s.counters)
      && OfPair(q.ledger, p.0, p.1) == OfPair(r.ledger, p.0, p.1)
           + (if Served(s, |s.leases|, p) && KeyOf(p) in r.books.sidecar
              then Grown(s.counters[p.1], r.books.sidecar[KeyOf(p)]) else 0)
      && q == r.(books := q.books, ledger := q.ledger, credits := q.credits, again := q.again,
                 putOff := q.putOff, watch := q.watch, first := q.first)
      && (KeyOf(p) in q.books.sidecar <==> p in q.watch)
      && (Held(s, |s.leases|, p) ==> p in q.watch)
      && (p in q.watch ==>
            && p.1 in s.counters && q.books.sidecar[KeyOf(p)] == s.counters[p.1]
            && q.watch[p] == Mark(Amount(r.passed, p.1), Dip(r, s, p.1)))
  {
    hide Bills, Charge, Notes, Firsts, Totals, Watched, OfPair, KeyOf, Served, Held, Grown, Step, Meters, SampleOf, Dip;
    var s := SampleOf(r, e);
    SettlesIsSettled(r, e);
    SampleShows(r, e, p.1);
    BillsOfPair(s, r.books.sidecar, |s.leases|, p);
    SumsJoin(r.ledger, Bills(s, r.books.sidecar, |s.leases|), p.0, p.1);
    HeldIsWatched(r, s, |s.leases|, p);
    TotalsAreWatched(r, s, |s.leases|, p);
  }

  /**
   In bytes: a marked pair whose VIP lost no entry is billed what passed since its
   mark, plus the mark's dip, minus the dip of this sample, and never less than
   nothing. So it is billed more than what passed exactly when the earlier dip was
   the larger.
   */
  lemma BillIsPassedAndDips(r: Run, e: Event, p: Pair)
    requires Settles(r, e) && DistinctVips(e.leases) && Tracks(r, p) && p in r.watch && p.1 !in r.resets
    requires Served(SampleOf(r, e), |SampleOf(r, e).leases|, p)
    ensures var bill := OfPair(Step(r, e).ledger, p.0, p.1) - OfPair(r.ledger, p.0, p.1);
      var passed, dip := Amount(r.passed, p.1) - r.watch[p].passed, Dip(r, SampleOf(r, e), p.1);
      && bill == Grown(Amount(r.passed, p.1) - r.watch[p].passed + r.watch[p].dip, dip)
      && (bill > passed <==> r.watch[p].dip > dip)
  {
    hide Step, Served, SampleOf, Meters, KeyOf, Dip, OfPair, Total, DistinctVips;
    IterationBillsExactly(r, e, p);
    SampleShows(r, e, p.1);
  }

  // ---------- Nothing before the mark ----------

  /** The point of the VIP's byte count from which pair `p` can still be billed, dips apart. */
  function From(r: Run, p: Pair): nat {
    if p in r.watch then r.watch[p].passed else Amount(r.passed, p.1)
  }

  /** How much more a pair is owed than its mark has advanced. */
  function Ahead(r: Run, p: Pair): int {
    OfPair(r.credits, p.0, p.1) - From(r, p)
  }

  lemma SettledAhead(r: Run, e: Event, p: Pair)
    requires e.Iteration? && Tracked(r) && DistinctVips(e.leases)
    ensures Ahead(Settled(r, SampleOf(r, e)), p) <= Ahead(r, p)
  {
    hide Bills, Charge, Notes, Firsts, Totals, Watched, OfPair, SidecarKey, Served, SampleOf, Dip;
    var s := SampleOf(r, e);
    SampleShows(r, e, p.1);
    assert Tracks(r, p);
    NotesOfPair(Credit, r, s, |s.leases|, p);
    TotalsAreWatched(r, s, |s.leases|, p);
    SumsJoin(r.credits, Notes(Credit, r, s, |s.leases|), p.0, p.1);
  }

  lemma StepAhead(r: Run, e: Event, p: Pair)
    requires Tracked(r) && (e.Iteration? ==> DistinctVips(e.leases))
    ensures Ahead(Step(r, e), p) <= Ahead(r, p)
  {
    hide Step, Settled, SampleOf, OfPair, KeyOf, Total;
    assert Tracks(r, p);
    if e.Iteration? {
      StepOnBooks(r, e);
      SettledAhead(r, e, p);
    } else {
      StepOnMeters(r, e, p.1);
    }
  }

  lemma {:induction false} StepsAhead(r: Run, es: seq<Event>, p: Pair)
    requires Tracked(r) && Listed(es)
    ensures Ahead(Steps(r, es), p) <= Ahead(r, p)
    decreases |es|
  {
    hide Step, Tracked, Ahead;
    if es != [] {
      StepTracks(r, es[0]);
      StepAhead(r, es[0], p);
      StepsAhead(Step(r, es[0]), es[1..], p);
    }
  }

  /** What the pair's bills gain from `r` to `t` without replays and repeats. */
  function Gain(r: Run, t: Run, p: Pair): int {
    OfPair(t.ledger, p.0, p.1) - OfPair(r.ledger, p.0, p.1)
      - (OfPair(t.replayed, p.0, p.1) - OfPair(r.replayed, p.0, p.1))
      - (OfPair(t.again, p.0, p.1) - OfPair(r.again, p.0, p.1))
  }

  /** From any point of any run on, a pair is billed at most the advance of its mark, replays and repeats apart. */
  lemma NeverBillsEarlierBytes(r: Run, es: seq<Event>, p: Pair)
    requires Tracked(r) && Listed(es)
    ensures Gain(r, Steps(r, es), p) <= From(Steps(r, es), p) - From(r, p)
  {
    hide Steps, Tracked, OfPair, From;
    StepsAhead(r, es, p);
    StepsExcess(r, es, p.0, p.1);
  }

  /**
   After a finished iteration that samples a lease, be its customer active,
   inactive, an operator or new on the VIP: whatever follows, the pair is billed
   at most the bytes that pass from then on, replays and repeats apart. If that
   sample and the later ones read both meters, nothing is repeated. So nothing
   that passed before a full sample while the customer was inactive, and nothing
   that passed under an earlier holder, is ever billed to the pair.
   */
  lemma BytesBeforeSampleNeverBilled(r: Run, e: Event, i: nat, es: seq<Event>)
    requires Tracked(r) && e.Iteration? && e.fate.Finishes? && DistinctVips(e.leases) && Listed(es)
    requires i < |e.leases| && Metered(SampleOf(r, e), e.leases[i])
    ensures var p := (e.customers[e.leases[i].identity].id, e.leases[i].vip);
      var q, t := Step(r, e), Steps(Step(r, e), es);
      && Gain(q, t, p) <= Amount(t.passed, p.1) - Amount(q.passed, p.1)
      && (ReadsBoth([e], p.1) && ReadsBoth(es, p.1) ==> OfPair(t.again, p.0, p.1) == OfPair(q.again, p.0, p.1))
  {
    hide Steps, OfPair, OfVip, KeyOf, Step, SampleOf, Gain, Dip;
    var s := SampleOf(r, e);
    SampleShows(r, e, e.leases[i].vip);
    var p: Pair := (e.customers[e.leases[i].identity].id, e.leases[i].vip);
    var q := Step(r, e);
    MeteredSettles(r, e, i);
    assert Holds(s, i, p);
    assert Held(s, |s.leases|, p);
    IterationBillsExactly(r, e, p);
    StepTracks(r, e);
    NeverBillsEarlierBytes(q, es, p);
    StepsTrack(q, es);
    assert Tracks(Steps(q, es), p);
    if ReadsBoth([e], p.1) && ReadsBoth(es, p.1) {
      FullSampleIsUndipped(r, e, p.1);
      StepsUndipped(q, es, p.1);
    }
  }

  lemma FullSampleIsUndipped(r: Run, e: Event, v: string)
    requires Settles(r, e) && DistinctVips(e.leases) && ReadsBoth([e], v)
    ensures Undipped(Step(r, e), v)
  {
    hide Step, SampleOf, Meters, KeyOf, Dip, OfPair, Total, Served, Held;
    assert [e][0] == e;
    SampleShows(r, e, v);
    forall p | p in Step(r, e).watch && p.1 == v ensures Step(r, e).watch[p].dip == 0 {
      IterationBillsExactly(r, e, p);
    }
  }

  lemma MeteredSettles(r: Run, e: Event, i: nat)
    requires e.Iteration? && e.fate.Finishes? && i < |e.leases| && Metered(SampleOf(r, e), e.leases[i])
    ensures Settles(r, e)
  {
    hide SampleOf;
    SampleShows(r, e, e.leases[i].vip);
    assert e.leases[i].vip in SampleOf(r, e).counters;
  }

  // ---------- A pair with its baseline ----------

  /** Bills beyond the saved baseline, replays apart. */
  function Beyond(r: Run, p: Pair): int
    requires KeyOf(p) in r.books.sidecar
  {
    OfPair(r.ledger, p.0, p.1) - OfPair(r.replayed, p.0, p.1) - r.books.sidecar[KeyOf(p)]
  }

  /** How far this event lets the pair's saved baseline fall. */
  function Fall(r: Run, e: Event, p: Pair): nat {
    if Settles(r, e) && KeyOf(p) in r.books.sidecar
    then Grown(r.books.sidecar[KeyOf(p)], Amount(SampleOf(r, e).counters, p.1)) else 0
  }

  function Falls(r: Run, es: seq<Event>, p: Pair): nat
    decreases |es|
  {
    if es == [] then 0 else Fall(r, es[0], p) + Falls(Step(r, es[0]), es[1..], p)
  }

  /** The event, if an iteration, samples `p` with a billable customer. */
  ghost predicate ServedNow(r: Run, e: Event, p: Pair) {
    e.Iteration? ==> DistinctVips(e.leases) && Served(SampleOf(r, e), |SampleOf(r, e).leases|, p)
  }

  ghost predicate ServedThroughout(r: Run, es: seq<Event>, p: Pair)
    decreases |es|
  {
    es != [] ==> ServedNow(r, es[0], p) && ServedThroughout(Step(r, es[0]), es[1..], p)
  }

  lemma ReplayableBeyond(r: Run, s: Sample, p: Pair)
    requires KeyOf(p) in r.books.sidecar
    ensures KeyOf(p) in Replayable(r, s).books.sidecar && Beyond(Replayable(r, s), p) == Beyond(r, p)
  {
    hide Bills, Charge, OfPair, KeyOf;
    SumsJoin(r.ledger, Bills(s, r.books.sidecar, |s.leases|), p.0, p.1);
    SumsJoin(r.replayed, Bills(s, r.books.sidecar, |s.leases|), p.0, p.1);
  }

  lemma ServedMeters(s: Sample, p: Pair)
    requires Served(s, |s.leases|, p)
    ensures Meters(s) && Held(s, |s.leases|, p)
  {
    var i :| 0 <= i < |s.leases| && Serves(s, i, p);
    assert p.1 in s.counters;
  }

  lemma StepBeyond(r: Run, e: Event, p: Pair)
    requires KeyOf(p) in r.books.sidecar && ServedNow(r, e, p)
    ensures KeyOf(p) in Step(r, e).books.sidecar && Beyond(Step(r, e), p) == Beyond(r, p) + Fall(r, e, p)
  {
    hide Step, OfPair, KeyOf, SampleOf, Settled, Replayable, Held, Served, DistinctVips, Meters, Total;
    if e.Iteration? {
      var s := SampleOf(r, e);
      ServedMeters(s, p);
      ReplayableBeyond(r, s, p);
      StepOnBooks(r, e);
      SampleShows(r, e, p.1);
      MetersHasLeases(s);
      if e.fate.Finishes? {
        IterationBillsExactly(r, e, p);
      }
    } else {
      StepOnMeters(r, e, p.1);
    }
  }

  lemma MetersHasLeases(s: Sample)
    requires Meters(s)
    ensures s.leases != []
  {
  }

  /**
   A pair with a saved baseline that every iteration samples with a billable
   customer, through failures, crashes, lost and unread entries: it is billed
   exactly the advance of its saved baseline, plus all the falls of that baseline,
   plus the bills that crashes left unsaved.
   */
  lemma {:induction false} ContinuousPairExact(r: Run, es: seq<Event>, p: Pair)
    requires KeyOf(p) in r.books.sidecar && ServedThroughout(r, es, p)
    ensures var t := Steps(r, es);
      && KeyOf(p) in t.books.sidecar
      && OfPair(t.ledger, p.0, p.1) - OfPair(r.ledger, p.0, p.1)
         == (t.books.sidecar[KeyOf(p)] as int - r.books.sidecar[KeyOf(p)] as int) + Falls(r, es, p)
            + OfPair(t.replayed, p.0, p.1) - OfPair(r.replayed, p.0, p.1)
    decreases |es|
  {
    hide Step, OfPair, KeyOf, ServedNow, Fall;
    if es != [] {
      StepBeyond(r, es[0], p);
      ContinuousPairExact(Step(r, es[0]), es[1..], p);
    }
  }

  /** The pair has a saved baseline that its meters have not fallen below. */
  predicate Based(r: Run, p: Pair) {
    KeyOf(p) in r.books.sidecar && r.books.sidecar[KeyOf(p)] <= Total(r, p.1)
      && (p.1 in r.src || p.1 in r.dst)
  }

  predicate NoReset(es: seq<Event>, v: string) {
    forall i :: 0 <= i < |es| ==> es[i].Reset? ==> es[i].vip != v
  }

  /** The event, if an iteration, lists `p` on a lease of a billable customer. */
  ghost predicate ServedBy(e: Event, p: Pair) {
    e.Iteration? ==>
      exists i :: 0 <= i < |e.leases| && e.leases[i].vip == p.1
        && e.leases[i].identity in e.customers
        && e.customers[e.leases[i].identity].id == p.0 && Billable(e.customers[e.leases[i].identity])
  }

  ghost predicate AlwaysServed(es: seq<Event>, p: Pair) {
    forall i :: 0 <= i < |es| ==> ServedBy(es[i], p)
  }

  lemma ShownIfRead(r: Run, e: Event, v: string)
    requires e.Iteration? && ReadsAll(e, v) && (v in r.src || v in r.dst)
    ensures v in SampleOf(r, e).counters
  {
  }

  lemma ServedByServes(r: Run, e: Event, p: Pair)
    requires e.Iteration? && ServedBy(e, p) && p.1 in SampleOf(r, e).counters
    ensures var s := SampleOf(r, e); Served(s, |s.leases|, p)
  {
    hide SampleOf;
    var s := SampleOf(r, e);
    SampleShows(r, e, p.1);
    var i :| 0 <= i < |e.leases| && e.leases[i].vip == p.1
      && e.leases[i].identity in e.customers
      && e.customers[e.leases[i].identity].id == p.0 && Billable(e.customers[e.leases[i].identity]);
    assert Serves(s, i, p);
  }

  lemma EntriesStay(r: Run, e: Event, v: string)
    requires !(e.Reset? && e.vip == v)
    ensures v in r.src ==> v in Step(r, e).src
    ensures v in r.dst ==> v in Step(r, e).dst
  {
    hide SampleOf, Bills, Charge, Notes, Totals, Watched, Firsts;
  }

  lemma StepBased(r: Run, e: Event, p: Pair)
    requires Based(r, p) && !(e.Reset? && e.vip == p.1) && ServedBy(e, p)
    requires (e.Iteration? ==> DistinctVips(e.leases)) && ReadsAll(e, p.1)
    ensures ServedNow(r, e, p) && Fall(r, e, p) == 0 && Based(Step(r, e), p)
    ensures Amount(Step(r, e).passed, p.1) - Amount(r.passed, p.1) == Total(Step(r, e), p.1) - Total(r, p.1)
  {
    hide Step, OfPair, KeyOf, SampleOf, Settled, Replayable, Held, Served, ServedBy, DistinctVips, Meters, Total, Dip;
    EntriesStay(r, e, p.1);
    if e.Iteration? {
      var s := SampleOf(r, e);
      SampleShows(r, e, p.1);
      ShownIfRead(r, e, p.1);
      ServedByServes(r, e, p);
      ServedMeters(s, p);
      StepOnBooks(r, e);
      MetersHasLeases(s);
      ReplayableKeeps(r, s, p.1);
      if e.fate.Finishes? {
        IterationBillsExactly(r, e, p);
        SameMeters(r, Step(r, e), p.1);
      }
    } else {
      StepOnMeters(r, e, p.1);
    }
  }

  lemma ReplayableKeeps(r: Run, s: Sample, v: string)
    ensures var q := Replayable(r, s);
      Total(q, v) == Total(r, v) && q.passed == r.passed && q.books.sidecar == r.books.sidecar
  {
  }

  lemma SameMeters(r: Run, q: Run, v: string)
    requires q.src == r.src && q.dst == r.dst
    ensures Total(q, v) == Total(r, v)
  {
  }

  /**
   Where both meters of its VIP are always read and lose no entry, no baseline of
   such a pair falls, and its meters count exactly what passes; no byte is lost.
   */
  lemma {:induction false} ContinuousPairReadFully(r: Run, es: seq<Event>, p: Pair)
    requires Based(r, p) && NoReset(es, p.1) && Listed(es) && ReadsBoth(es, p.1) && AlwaysServed(es, p)
    ensures ServedThroughout(r, es, p) && Falls(r, es, p) == 0
    ensures var t := Steps(r, es);
      Based(t, p) && Amount(t.passed, p.1) - Amount(r.passed, p.1) == Total(t, p.1) - Total(r, p.1)
    decreases |es|
  {
    hide Step, KeyOf, ServedBy, ServedNow, Fall, Total, Based;
    if es != [] {
      StepBased(r, es[0], p);
      ContinuousPairReadFully(Step(r, es[0]), es[1..], p);
    }
  }

  predicate Crashless(es: seq<Event>) {
    forall i :: 0 <= i < |es| ==> es[i].Iteration? ==> !es[i].fate.CrashesBeforeSave?
  }

  lemma KeepsReplayed(r: Run, e: Event)
    requires e.Iteration? ==> !e.fate.CrashesBeforeSave?
    ensures Step(r, e).replayed == r.replayed
  {
    hide SampleOf, Totals, Charge, Bills, Notes, Watched, Firsts;
  }

  lemma {:induction false} CrashlessNeverReplays(r: Run, es: seq<Event>)
    requires Crashless(es)
    ensures Steps(r, es).replayed == r.replayed
    decreases |es|
  {
    hide Step;
    if es != [] {
      KeepsReplayed(r, es[0]);
      CrashlessNeverReplays(Step(r, es[0]), es[1..]);
    }
  }

  /** Without crashes such a pair is billed exactly its last saved total minus its first. */
  lemma ContinuousPairWithoutCrash(r: Run, es: seq<Event>, p: Pair)
    requires Based(r, p) && NoReset(es, p.1) && Listed(es) && ReadsBoth(es, p.1) && AlwaysServed(es, p) && Crashless(es)
    ensures var t := Steps(r, es);
      && Based(t, p)
      && OfPair(t.ledger, p.0, p.1) + r.books.sidecar[KeyOf(p)] == OfPair(r.ledger, p.0, p.1) + t.books.sidecar[KeyOf(p)]
  {
    hide Steps, OfPair, KeyOf, ServedThroughout, Falls, Total;
    ContinuousPairReadFully(r, es, p);
    ContinuousPairExact(r, es, p);
    CrashlessNeverReplays(r, es);
  }

  // ---------- From one sample to the next ----------

  /** No iteration of `es` finishes: the saved baselines stay. */
  predicate Unfinished(es: seq<Event>) {
    forall i :: 0 <= i < |es| ==> es[i].Iteration? ==> !es[i].fate.Finishes?
  }

  lemma UnfinishedStep(r: Run, e: Event, v: string)
    requires (e.Iteration? ==> !e.fate.Finishes?) && !(e.Reset? && e.vip == v)
    ensures Step(r, e).books.sidecar == r.books.sidecar
    ensures Amount(Step(r, e).passed, v) - Amount(r.passed, v) == Total(Step(r, e), v) - Total(r, v) >= 0
  {
    hide Step, SampleOf, Totals, Charge, Bills, Notes, Watched, Firsts, Total;
    if e.Iteration? {
      StepOnBooks(r, e);
      ReplayableKeeps(r, SampleOf(r, e), v);
    } else {
      StepOnMeters(r, e, v);
    }
  }

  lemma {:induction false} UnfinishedSteps(r: Run, es: seq<Event>, v: string)
    requires Unfinished(es) && NoReset(es, v)
    ensures var t := Steps(r, es);
      && t.books.sidecar == r.books.sidecar
      && Amount(t.passed, v) - Amount(r.passed, v) == Total(t, v) - Total(r, v) >= 0
    decreases |es|
  {
    hide Step, Total;
    if es != [] {
      UnfinishedStep(r, es[0], v);
      UnfinishedSteps(Step(r, es[0]), es[1..], v);
    }
  }

  /**
   Two finished iterations in a row that sample a pair, the second with a
   billable customer, no entry of its VIP lost in between: the second bills exactly
   the bytes that passed between the two, plus what the first sample did not show,
   minus what the second does not, whatever the customer's status was at the
   first or while the bytes passed. Bytes of an inactive spell are therefore
   billed exactly when they pass after the last finished iteration that sampled
   the lease during the spell, full samples given.
   */
  lemma BytesSinceSampleBilled(r: Run, e1: Event, mid: seq<Event>, e2: Event, p: Pair)
    requires Settles(r, e1) && DistinctVips(e1.leases) && Held(SampleOf(r, e1), |SampleOf(r, e1).leases|, p)
    requires Unfinished(mid) && NoReset(mid, p.1)
    requires var t := Steps(Step(r, e1), mid);
      Settles(t, e2) && DistinctVips(e2.leases) && Served(SampleOf(t, e2), |SampleOf(t, e2).leases|, p)
    ensures var q, t := Step(r, e1), Steps(Step(r, e1), mid);
      var bill := OfPair(Step(t, e2).ledger, p.0, p.1) - OfPair(t.ledger, p.0, p.1);
      && Amount(q.passed, p.1) <= Amount(t.passed, p.1)
      && bill == Grown(Amount(t.passed, p.1) - Amount(q.passed, p.1) + Dip(r, SampleOf(r, e1), p.1),
                       Dip(t, SampleOf(t, e2), p.1))
      && (ReadsBoth([e1, e2], p.1) ==> bill == Amount(t.passed, p.1) - Amount(q.passed, p.1))
  {
    hide Step, Steps, OfPair, KeyOf, SampleOf, Held, Served, Meters, Total, Dip;
    var q, t := Step(r, e1), Steps(Step(r, e1), mid);
    IterationBillsExactly(r, e1, p);
    SameMeters(r, q, p.1);
    SampleShows(r, e1, p.1);
    UnfinishedSteps(q, mid, p.1);
    IterationBillsExactly(t, e2, p);
    SampleShows(t, e2, p.1);
    assert [e1, e2][0] == e1 && [e1, e2][1] == e2;
  }

  /** A finished iteration bills nothing to a pair that the last finished one did not sample. */
  lemma UnsampledBillsNothing(r: Run, e: Event, p: Pair)
    requires Settles(r, e) && DistinctVips(e.leases) && KeyOf(p) !in r.books.sidecar
    ensures OfPair(Step(r, e).ledger, p.0, p.1) == OfPair(r.ledger, p.0, p.1)
  {
    hide Step, OfPair, KeyOf, SampleOf, Held, Served, Dip;
    IterationBillsExactly(r, e, p);
  }
}
