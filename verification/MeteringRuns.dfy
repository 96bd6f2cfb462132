/**
 Whole runs of the quota monitor against two meters that count, lose entries and
 can fail to be read one without the other, with iterations that fail or crash:
 what is billed, what the bytes really were, and how far the two can differ.
 */
module MeteringRuns {
  import opened Metering

  type Pair = (int, string)

  /** The two meters: bytes by source and by destination address. */
  datatype Direction = Src | Dst

  /** Bytes pass; an entry of one meter goes; an iteration, in which entries of
      either meter can be unread, all of a meter's when its command fails, and in
      which bytes pass after the first meter is read and before the second: `late`
      has those of the first. */
  datatype Event =
    | Traffic(direction: Direction, vip: string, bytes: nat)
    | Reset(direction: Direction, vip: string)
    | Iteration(leases: seq<Lease>, customers: map<string, Customer>,
        unreadSrc: set<string>, late: map<string, nat>, unreadDst: set<string>, fate: Fate)

  /** When a pair was last sampled: the bytes passed on its VIP by then, and how
      many of those that the meters held the sample did not read. */
  datatype Mark = Mark(passed: nat, dip: nat)

  /**
   The state of a run. The books and the two meters are real; the rest is what an
   observer with a perfect view records: the bytes that passed on each VIP, the
   committed bills, those among them whose baselines were never saved, the mark
   of each pair, and for each billable sample of a marked pair the bytes owed
   since the mark, the bytes the mark's dip makes it bill again, and the bytes its
   own dip makes it put off; the point at which each VIP was first sampled, and the
   VIPs that ever lost an entry.
   */
  datatype Run = Run(
    books: Books,
    src: map<string, nat>,
    dst: map<string, nat>,
    passed: map<string, nat>,
    ledger: seq<Bill>,
    replayed: seq<Bill>,
    watch: map<Pair, Mark>,
    credits: seq<Bill>,
    again: seq<Bill>,
    putOff: seq<Bill>,
    first: map<string, nat>,
    resets: set<string>)

  /** What both meters hold of a VIP. */
  function Total(r: Run, vip: string): nat {
    Amount(r.src, vip) + Amount(r.dst, vip)
  }

  /** What the reading of a meter shows. */
  function Shown(m: map<string, nat>, unread: set<string>, late: map<string, nat>): map<string, nat> {
    map v | v in m && v !in unread :: Grown(m[v], Amount(late, v))
  }

  function SampleOf(r: Run, e: Event): Sample
    requires e.Iteration?
  {
    Sample(e.leases, Summed(Shown(r.src, e.unreadSrc, e.late), Shown(r.dst, e.unreadDst, map[])), e.customers)
  }

  /** How many of the bytes that the meters hold of a VIP the sample does not show. */
  function Dip(r: Run, s: Sample, vip: string): nat {
    Grown(Total(r, vip), Amount(s.counters, vip))
  }

  /** The pairs sampled among the first `n` leases. */
  function Watched(r: Run, s: Sample, n: nat): map<Pair, Mark>
    requires n <= |s.leases|
  {
    if n == 0 then map[]
    else
      var l := s.leases[n - 1];
      if Metered(s, l)
      then Watched(r, s, n - 1)[(s.customers[l.identity].id, l.vip) := Mark(Amount(r.passed, l.vip), Dip(r, s, l.vip))]
      else Watched(r, s, n - 1)
  }

  /** Bytes passed on the pair's VIP since it was last sampled. */
  function Owed(r: Run, p: Pair): nat {
    if p in r.watch then Grown(Amount(r.passed, p.1), r.watch[p].passed) else 0
  }

  /** Bytes from before the mark that this sample shows for the first time. */
  function Again(r: Run, s: Sample, p: Pair): nat {
    if p in r.watch then Grown(r.watch[p].dip, Dip(r, s, p.1)) else 0
  }

  /** Owed bytes that this sample does not show yet. */
  function PutOff(r: Run, s: Sample, p: Pair): nat {
    var hidden := if p in r.watch then Grown(Dip(r, s, p.1), r.watch[p].dip) else 0;
    if hidden < Owed(r, p) then hidden else Owed(r, p)
  }

  datatype Account = Credit | Repeat | Delay

  function AmountOf(account: Account, r: Run, s: Sample, p: Pair): nat {
    match account
    case Credit => Owed(r, p)
    case Repeat => Again(r, s, p)
    case Delay => PutOff(r, s, p)
  }

  /** What lease `i` adds to an account: it does if its pair has a mark and its customer is billable now. */
  function NoteOf(account: Account, r: Run, s: Sample, i: nat): seq<Bill>
    requires i < |s.leases|
  {
    var l := s.leases[i];
    if !Metered(s, l) then []
    else
      var c := s.customers[l.identity];
      if Billable(c) && (c.id, l.vip) in r.watch
      then [Bill(c.id, l.vip, AmountOf(account, r, s, (c.id, l.vip)))] else []
  }

  function Notes(account: Account, r: Run, s: Sample, n: nat): seq<Bill>
    requires n <= |s.leases|
  {
    if n == 0 then [] else Notes(account, r, s, n - 1) + NoteOf(account, r, s, n - 1)
  }

  /** The VIPs sampled for the first time among the first `n` leases. */
  function Firsts(s: Sample, passed: map<string, nat>, first: map<string, nat>, n: nat): map<string, nat>
    requires n <= |s.leases|
  {
    if n == 0 then first
    else
      var l := s.leases[n - 1];
      var before := Firsts(s, passed, first, n - 1);
      if Metered(s, l) && l.vip !in before then before[l.vip := Amount(passed, l.vip)] else before
  }

  /** A listing without leases clears the sidecar. */
  function Cleared(r: Run): Run {
    r.(books := r.books.(sidecar := map[]), watch := map[])
  }

  /** The bills are committed, the baselines are not saved. */
  function Replayable(r: Run, s: Sample): Run {
    var bills := Bills(s, r.books.sidecar, |s.leases|);
    r.(books := r.books.(used := Charge(r.books.used, bills)),
       ledger := r.ledger + bills, replayed := r.replayed + bills)
  }

  /** The bills are committed and the new baselines saved. */
  function Settled(r: Run, s: Sample): Run {
    var n := |s.leases|;
    var bills := Bills(s, r.books.sidecar, n);
    r.(books := Books(Totals(s, n), Charge(r.books.used, bills)),
       ledger := r.ledger + bills, credits := r.credits + Notes(Credit, r, s, n),
       again := r.again + Notes(Repeat, r, s, n), putOff := r.putOff + Notes(Delay, r, s, n),
       watch := Watched(r, s, n), first := Firsts(s, r.passed, r.first, n))
  }

  function Step(r: Run, e: Event): Run {
    match e
    case Traffic(Src, v, n) =>
      r.(src := r.src[v := Amount(r.src, v) + n], passed := r.passed[v := Amount(r.passed, v) + n])
    case Traffic(Dst, v, n) =>
      r.(dst := r.dst[v := Amount(r.dst, v) + n], passed := r.passed[v := Amount(r.passed, v) + n])
    case Reset(Src, v) => r.(src := r.src - {v}, resets := r.resets + {v})
    case Reset(Dst, v) => r.(dst := r.dst - {v}, resets := r.resets + {v})
    case Iteration(leases, _, _, _, _, fate) =>
      var s := SampleOf(r, e);
      if leases == [] then (if fate.Finishes? then Cleared(r) else r)
      else if !Meters(s) || fate.FailsBeforeCommit? then r
      else if fate.CrashesBeforeSave? then Replayable(r, s)
      else Settled(r, s)
  }

  /** The books of a run change as the monitor's iteration says. */
  lemma StepIsIteration(r: Run, e: Event)
    requires e.Iteration?
    ensures Step(r, e).books == After(r.books, SampleOf(r, e), e.fate)
  {
    hide SampleOf, Bills, Totals, Charge, Notes, Watched, Firsts;
    SampleShows(r, e, "");
  }

  function Steps(r: Run, es: seq<Event>): Run
    decreases |es|
  {
    if es == [] then r else Steps(Step(r, es[0]), es[1..])
  }

  /** What an iteration makes of the run. */
  lemma StepOnBooks(r: Run, e: Event)
    requires e.Iteration?
    ensures var s := SampleOf(r, e);
      Step(r, e) == if e.leases == [] then (if e.fate.Finishes? then Cleared(r) else r)
                    else if !Meters(s) || e.fate.FailsBeforeCommit? then r
                    else if e.fate.CrashesBeforeSave? then Replayable(r, s)
                    else Settled(r, s)
  {
    hide SampleOf, Replayable, Settled, Cleared;
  }

  /** Other events leave the books alone. The meters count what passes, but for entries that go. */
  lemma StepOnMeters(r: Run, e: Event, v: string)
    requires !e.Iteration?
    ensures var q := Step(r, e);
      var grown := Amount(q.passed, v) - Amount(r.passed, v);
      && q == r.(src := q.src, dst := q.dst, passed := q.passed, resets := q.resets)
      && grown >= 0 && r.resets <= q.resets && (e.Reset? ==> e.vip in q.resets)
      && Total(q, v) <= Total(r, v) + grown
      && ((e.Reset? && e.vip == v) || Total(q, v) == Total(r, v) + grown)
  {
    hide Step, Amount;
    match e
    case Traffic(_, w, n) =>
      TrafficStep(r, e);
      AmountAdded(r.src, w, n, v);
      AmountAdded(r.dst, w, n, v);
      AmountAdded(r.passed, w, n, v);
    case Reset(_, w) =>
      ResetStep(r, e);
      AmountLost(r.src, w, v);
      AmountLost(r.dst, w, v);
  }

  lemma TrafficStep(r: Run, e: Event)
    requires e.Traffic?
    ensures var q, w, n := Step(r, e), e.vip, e.bytes;
      && q == r.(src := q.src, dst := q.dst, passed := r.passed[w := Amount(r.passed, w) + n])
      && q.src == (if e.direction.Src? then r.src[w := Amount(r.src, w) + n] else r.src)
      && q.dst == (if e.direction.Src? then r.dst else r.dst[w := Amount(r.dst, w) + n])
  {
    hide Amount;
  }

  lemma ResetStep(r: Run, e: Event)
    requires e.Reset?
    ensures var q := Step(r, e);
      && q == r.(src := q.src, dst := q.dst, resets := r.resets + {e.vip})
      && q.src == (if e.direction.Src? then r.src - {e.vip} else r.src)
      && q.dst == (if e.direction.Src? then r.dst else r.dst - {e.vip})
  {
  }

  lemma AmountAdded(m: map<string, nat>, w: string, n: nat, v: string)
    ensures Amount(m[w := Amount(m, w) + n], v) == Amount(m, v) + if v == w then n else 0
  {
  }

  lemma AmountLost(m: map<string, nat>, w: string, v: string)
    ensures Amount(m - {w}, v) == if v == w then 0 else Amount(m, v)
  {
  }

  /** A monitor with no baselines in front of untouched meters. */
  function Start(used: map<int, int>): Run {
    Run(Books(map[], used), map[], map[], map[], [], [], map[], [], [], [], map[], {})
  }

  // ---------- Sums ----------

  function OfPair(bills: seq<Bill>, c: int, v: string): nat
    decreases |bills|
  {
    if bills == [] then 0
    else
      var b := bills[|bills| - 1];
      OfPair(bills[..|bills| - 1], c, v) + (if b.customer == c && b.vip == v then b.bytes else 0)
  }

  function OfVip(bills: seq<Bill>, v: string): nat
    decreases |bills|
  {
    if bills == [] then 0
    else
      var b := bills[|bills| - 1];
      OfVip(bills[..|bills| - 1], v) + (if b.vip == v then b.bytes else 0)
  }

  function OfCustomer(bills: seq<Bill>, c: int): nat
    decreases |bills|
  {
    if bills == [] then 0
    else
      var b := bills[|bills| - 1];
      OfCustomer(bills[..|bills| - 1], c) + (if b.customer == c then b.bytes else 0)
  }

  lemma {:induction false} SumsJoin(a: seq<Bill>, b: seq<Bill>, c: int, v: string)
    ensures OfPair(a + b, c, v) == OfPair(a, c, v) + OfPair(b, c, v)
    ensures OfVip(a + b, v) == OfVip(a, v) + OfVip(b, v)
    ensures OfCustomer(a + b, c) == OfCustomer(a, c) + OfCustomer(b, c)
    decreases |b|
  {
    if b == [] {
      assert a + b == a;
    } else {
      assert (a + b)[..|a + b| - 1] == a + b[..|b| - 1];
      SumsJoin(a, b[..|b| - 1], c, v);
    }
  }

  // ---------- Conservation in the database ----------

  /** Every committed byte is in the customer's column and nothing else is. */
  lemma {:induction false} ChargeAdds(used: map<int, int>, bills: seq<Bill>, c: int)
    ensures Charge(used, bills).Keys == used.Keys
    ensures c in used ==> Charge(used, bills)[c] == used[c] + OfCustomer(bills, c)
    decreases |bills|
  {
    if bills != [] {
      ChargeAdds(used, bills[..|bills| - 1], c);
    }
  }

  lemma BillsUsed(r: Run, bills: seq<Bill>, c: int)
    requires c in r.books.used
    ensures var used := Charge(r.books.used, bills);
      && c in used
      && used[c] - r.books.used[c] == OfCustomer(r.ledger + bills, c) - OfCustomer(r.ledger, c)
  {
    ChargeAdds(r.books.used, bills, c);
    SumsJoin(r.ledger, bills, c, "");
  }

  lemma StepUsed(r: Run, e: Event, c: int)
    requires c in r.books.used
    ensures var q := Step(r, e);
      && c in q.books.used
      && q.books.used[c] - r.books.used[c] == OfCustomer(q.ledger, c) - OfCustomer(r.ledger, c)
  {
    hide Step, Bills, Totals, Watched, Notes, Firsts, SidecarKey, Charge, OfCustomer, SampleOf, Total;
    if e.Iteration? {
      var s := SampleOf(r, e);
      StepOnBooks(r, e);
      BillsUsed(r, Bills(s, r.books.sidecar, |s.leases|), c);
    } else {
      StepOnMeters(r, e, "");
    }
  }

  lemma {:induction false} UsedGrowsWithLedger(r: Run, es: seq<Event>, c: int)
    requires c in r.books.used
    ensures var t := Steps(r, es);
      && c in t.books.used
      && t.books.used[c] - r.books.used[c] == OfCustomer(t.ledger, c) - OfCustomer(r.ledger, c)
    decreases |es|
  {
    hide Step;
    if es != [] {
      StepUsed(r, es[0], c);
      UsedGrowsWithLedger(Step(r, es[0]), es[1..], c);
    }
  }

  /** On every run, a customer's column holds what it held plus exactly the committed bills. */
  lemma UsedIsLedger(used: map<int, int>, es: seq<Event>, c: int)
    requires c in used
    ensures var r := Steps(Start(used), es);
      c in r.books.used && r.books.used[c] == used[c] + OfCustomer(r.ledger, c)
  {
    hide Steps;
    UsedGrowsWithLedger(Start(used), es, c);
  }

  // ---------- The books against the bytes ----------

  function KeyOf(p: Pair): string {
    SidecarKey(p.0, p.1)
  }

  /** The saved baselines are those of the marked pairs, and for each of them the
      meters' growth is covered by bytes that passed and by the mark's dip. */
  ghost predicate Tracks(r: Run, p: Pair) {
    && (KeyOf(p) in r.books.sidecar <==> p in r.watch)
    && (p in r.watch ==>
          var owed: int := Amount(r.passed, p.1) - r.watch[p].passed;
          && owed >= 0
          && Grown(Total(r, p.1), r.books.sidecar[KeyOf(p)]) <= owed + r.watch[p].dip
          && (p.1 !in r.resets ==> Total(r, p.1) as int - r.books.sidecar[KeyOf(p)] == owed + r.watch[p].dip))
  }

  ghost predicate Tracked(r: Run) {
    forall p: Pair :: Tracks(r, p)
  }

  lemma KeyOfInjective(p: Pair, q: Pair)
    ensures KeyOf(p) == KeyOf(q) ==> p == q
  {
    if KeyOf(p) == KeyOf(q) {
      SidecarKeyInjective(p.0, p.1, q.0, q.1);
    }
  }

  /** The iteration reads all of both entries of the VIP, as far as there are any. */
  predicate ReadsAll(e: Event, v: string) {
    e.Iteration? ==> v !in e.unreadSrc && v !in e.late && v !in e.unreadDst
  }

  /** A sample shows at most what the meters hold, and all of it if both entries are read. */
  lemma SampleShows(r: Run, e: Event, v: string)
    requires e.Iteration?
    ensures Amount(SampleOf(r, e).counters, v) + Dip(r, SampleOf(r, e), v) == Total(r, v)
    ensures ReadsAll(e, v) ==> Dip(r, SampleOf(r, e), v) == 0
    ensures Total(r, v) > 0 && ReadsAll(e, v) ==> v in SampleOf(r, e).counters
    ensures SampleOf(r, e).leases == e.leases && SampleOf(r, e).customers == e.customers
  {
  }

  /** The saved totals and the marks name the same pairs. */
  lemma {:induction false} TotalsAreWatched(r: Run, s: Sample, n: nat, p: Pair)
    requires n <= |s.leases|
    ensures KeyOf(p) in Totals(s, n) <==> p in Watched(r, s, n)
    ensures p in Watched(r, s, n) ==>
      && p.1 in s.counters && Totals(s, n)[KeyOf(p)] == s.counters[p.1]
      && Watched(r, s, n)[p] == Mark(Amount(r.passed, p.1), Dip(r, s, p.1))
  {
    if n > 0 {
      hide SidecarKey, Dip;
      TotalsAreWatched(r, s, n - 1, p);
      var l := s.leases[n - 1];
      if Metered(s, l) {
        KeyOfInjective(p, (s.customers[l.identity].id, l.vip));
      }
    }
  }

  lemma SettledTracks(r: Run, e: Event, p: Pair)
    requires e.Iteration? && Tracks(r, p)
    ensures Tracks(Settled(r, SampleOf(r, e)), p)
  {
    hide SidecarKey, Bills, Charge, Notes, Firsts, Totals, Watched, SampleOf, Dip;
    TotalsAreWatched(r, SampleOf(r, e), |SampleOf(r, e).leases|, p);
    SampleShows(r, e, p.1);
  }

  lemma StepTracksPair(r: Run, e: Event, p: Pair)
    requires Tracks(r, p)
    ensures Tracks(Step(r, e), p)
  {
    hide Step, KeyOf, Bills, Charge, Settled, SampleOf;
    if e.Iteration? {
      StepOnBooks(r, e);
      SettledTracks(r, e, p);
    } else {
      StepOnMeters(r, e, p.1);
    }
  }

  lemma StepTracks(r: Run, e: Event)
    requires Tracked(r)
    ensures Tracked(Step(r, e))
  {
    hide Step, Tracks;
    forall p: Pair ensures Tracks(Step(r, e), p) {
      StepTracksPair(r, e, p);
    }
  }

  lemma {:induction false} StepsTrack(r: Run, es: seq<Event>)
    requires Tracked(r)
    ensures Tracked(Steps(r, es))
    decreases |es|
  {
    hide Step, Tracked;
    if es != [] {
      StepTracks(r, es[0]);
      StepsTrack(Step(r, es[0]), es[1..]);
    }
  }

  lemma OneBill(b: Bill, c: int, v: string)
    ensures OfPair([b], c, v) == (if b.customer == c && b.vip == v then b.bytes else 0)
    ensures OfVip([b], v) == (if b.vip == v then b.bytes else 0)
  {
    assert [b][..0] == [];
  }

  /** What a marked pair is billed, by the bytes that passed and the two dips. */
  lemma BillBalances(r: Run, e: Event, p: Pair)
    requires e.Iteration? && Tracks(r, p) && p in r.watch && p.1 in SampleOf(r, e).counters
    ensures var s := SampleOf(r, e);
      var bill := Grown(s.counters[p.1], r.books.sidecar[KeyOf(p)]);
      && bill <= Owed(r, p) + Again(r, s, p)
      && (p.1 !in r.resets ==> bill + PutOff(r, s, p) == Owed(r, p) + Again(r, s, p))
  {
    hide SampleOf, KeyOf, Dip;
    SampleShows(r, e, p.1);
  }

  /** Lease by lease. */
  lemma LeaseBalances(r: Run, e: Event, i: nat, c: int, v: string)
    requires e.Iteration? && Tracked(r) && i < |SampleOf(r, e).leases|
    ensures var s := SampleOf(r, e);
      var bill := OfPair(BillOf(s, r.books.sidecar, i), c, v);
      var credit, again := OfPair(NoteOf(Credit, r, s, i), c, v), OfPair(NoteOf(Repeat, r, s, i), c, v);
      && bill <= credit + again
      && (v !in r.resets ==> bill + OfPair(NoteOf(Delay, r, s, i), c, v) == credit + again)
  {
    hide SidecarKey, SampleOf, Owed, Again, PutOff, OfPair;
    var s := SampleOf(r, e);
    var l := s.leases[i];
    NoBills(c, v);
    if Metered(s, l) {
      var d := s.customers[l.identity];
      var p: Pair := (d.id, l.vip);
      assert Tracks(r, p) && KeyOf(p) == SidecarKey(d.id, l.vip);
      if Billable(d) && p in r.watch {
        BillBalances(r, e, p);
        OneBill(Bill(d.id, l.vip, Grown(s.counters[l.vip], r.books.sidecar[KeyOf(p)])), c, v);
        OneBill(Bill(d.id, l.vip, Owed(r, p)), c, v);
        OneBill(Bill(d.id, l.vip, Again(r, s, p)), c, v);
        OneBill(Bill(d.id, l.vip, PutOff(r, s, p)), c, v);
      }
    }
  }

  lemma NoBills(c: int, v: string)
    ensures OfPair([], c, v) == 0 && OfVip([], v) == 0
  {
  }

  lemma BillsGrow(s: Sample, last: map<string, nat>, n: nat, c: int, v: string)
    requires n < |s.leases|
    ensures OfPair(Bills(s, last, n + 1), c, v) == OfPair(Bills(s, last, n), c, v) + OfPair(BillOf(s, last, n), c, v)
  {
    hide BillOf, OfPair;
    SumsJoin(Bills(s, last, n), BillOf(s, last, n), c, v);
  }

  lemma NotesGrow(account: Account, r: Run, s: Sample, n: nat, c: int, v: string)
    requires n < |s.leases|
    ensures OfPair(Notes(account, r, s, n + 1), c, v)
         == OfPair(Notes(account, r, s, n), c, v) + OfPair(NoteOf(account, r, s, n), c, v)
    ensures OfVip(Notes(account, r, s, n + 1), v) == OfVip(Notes(account, r, s, n), v) + OfVip(NoteOf(account, r, s, n), v)
  {
    hide NoteOf, OfPair, OfVip;
    SumsJoin(Notes(account, r, s, n), NoteOf(account, r, s, n), c, v);
  }

  lemma NothingSampled(account: Account, r: Run, s: Sample, last: map<string, nat>, c: int, v: string)
    ensures OfPair(Bills(s, last, 0), c, v) == OfPair(Notes(account, r, s, 0), c, v) == 0
    ensures OfVip(Notes(account, r, s, 0), v) == 0
  {
  }

  lemma {:induction false} BillsBalance(r: Run, e: Event, n: nat, c: int, v: string)
    requires e.Iteration? && Tracked(r) && n <= |SampleOf(r, e).leases|
    ensures var s := SampleOf(r, e);
      var bills := OfPair(Bills(s, r.books.sidecar, n), c, v);
      var credits, again := OfPair(Notes(Credit, r, s, n), c, v), OfPair(Notes(Repeat, r, s, n), c, v);
      && bills <= credits + again
      && (v !in r.resets ==> bills + OfPair(Notes(Delay, r, s, n), c, v) == credits + again)
    decreases n
  {
    hide BillOf, NoteOf, OfPair, OfVip, Tracked, Bills, Notes, SampleOf;
    var s := SampleOf(r, e);
    if n == 0 {
      NothingSampled(Credit, r, s, r.books.sidecar, c, v);
      NothingSampled(Repeat, r, s, r.books.sidecar, c, v);
      NothingSampled(Delay, r, s, r.books.sidecar, c, v);
    } else {
      BillsBalance(r, e, n - 1, c, v);
      LeaseBalances(r, e, n - 1, c, v);
      BillsGrow(s, r.books.sidecar, n - 1, c, v);
      NotesGrow(Credit, r, s, n - 1, c, v);
      NotesGrow(Repeat, r, s, n - 1, c, v);
      NotesGrow(Delay, r, s, n - 1, c, v);
    }
  }

  /** How much more a pair is billed than it owes and repeats, replays apart. */
  function Excess(r: Run, c: int, v: string): int {
    OfPair(r.ledger, c, v) - OfPair(r.credits, c, v) - OfPair(r.again, c, v) - OfPair(r.replayed, c, v)
  }

  lemma SettledExcess(r: Run, e: Event, c: int, v: string)
    requires e.Iteration? && Tracked(r)
    ensures var q := Settled(r, SampleOf(r, e));
      && Excess(q, c, v) <= Excess(r, c, v)
      && (v !in r.resets ==> Excess(q, c, v) + OfPair(q.putOff, c, v) == Excess(r, c, v) + OfPair(r.putOff, c, v))
  {
    hide SidecarKey, Bills, Notes, Firsts, Totals, Watched, Charge, Tracked, OfPair, SampleOf;
    var s := SampleOf(r, e);
    var n := |s.leases|;
    BillsBalance(r, e, n, c, v);
    SumsJoin(r.ledger, Bills(s, r.books.sidecar, n), c, v);
    SumsJoin(r.credits, Notes(Credit, r, s, n), c, v);
    SumsJoin(r.again, Notes(Repeat, r, s, n), c, v);
    SumsJoin(r.putOff, Notes(Delay, r, s, n), c, v);
  }

  lemma ReplayableExcess(r: Run, s: Sample, c: int, v: string)
    ensures Excess(Replayable(r, s), c, v) == Excess(r, c, v)
  {
    hide Bills, Charge, OfPair;
    SumsJoin(r.ledger, Bills(s, r.books.sidecar, |s.leases|), c, v);
    SumsJoin(r.replayed, Bills(s, r.books.sidecar, |s.leases|), c, v);
  }

  lemma StepExcess(r: Run, e: Event, c: int, v: string)
    requires Tracked(r)
    ensures var q := Step(r, e);
      && Excess(q, c, v) <= Excess(r, c, v) && r.resets <= q.resets
      && (v !in r.resets ==> Excess(q, c, v) + OfPair(q.putOff, c, v) == Excess(r, c, v) + OfPair(r.putOff, c, v))
  {
    hide Settled, Replayable, Tracked, OfPair, SampleOf;
    if e.Iteration? {
      SettledExcess(r, e, c, v);
      ReplayableExcess(r, SampleOf(r, e), c, v);
      KeepsRest(r, SampleOf(r, e));
    }
  }

  lemma KeepsRest(r: Run, s: Sample)
    ensures Settled(r, s).resets == r.resets && Replayable(r, s).resets == r.resets && Replayable(r, s).putOff == r.putOff
  {
  }

  lemma {:induction false} StepsExcess(r: Run, es: seq<Event>, c: int, v: string)
    requires Tracked(r)
    ensures var t := Steps(r, es);
      && Excess(t, c, v) <= Excess(r, c, v) && r.resets <= t.resets
      && (v !in t.resets ==> Excess(t, c, v) + OfPair(t.putOff, c, v) == Excess(r, c, v) + OfPair(r.putOff, c, v))
    decreases |es|
  {
    hide Step, Tracked, Excess, OfPair;
    if es != [] {
      StepTracks(r, es[0]);
      StepExcess(r, es[0], c, v);
      StepsExcess(Step(r, es[0]), es[1..], c, v);
    }
  }

  // ---------- Runs that read both meters ----------

  predicate ReadsBoth(es: seq<Event>, v: string) {
    forall i :: 0 <= i < |es| ==> ReadsAll(es[i], v)
  }

  /** No pair's saved sample on the VIP read less than the meters held. */
  predicate Undipped(r: Run, v: string) {
    forall p :: p in r.watch && p.1 == v ==> r.watch[p].dip == 0
  }

  lemma {:induction false} NotesOfNothing(account: Account, r: Run, s: Sample, n: nat, v: string)
    requires n <= |s.leases| && forall p: Pair :: p.1 == v ==> AmountOf(account, r, s, p) == 0
    ensures OfVip(Notes(account, r, s, n), v) == 0
    ensures forall c :: OfPair(Notes(account, r, s, n), c, v) == 0
  {
    hide AmountOf, OfPair, OfVip;
    if n == 0 {
      forall c ensures OfPair(Notes(account, r, s, 0), c, v) == 0 {
        NoBills(c, v);
      }
      NoBills(0, v);
    } else {
      NotesOfNothing(account, r, s, n - 1, v);
      forall c ensures OfPair(Notes(account, r, s, n), c, v) == 0 && OfVip(Notes(account, r, s, n), v) == 0 {
        NotesGrow(account, r, s, n - 1, c, v);
        NoBills(c, v);
        var note := NoteOf(account, r, s, n - 1);
        if note != [] {
          OneBill(note[0], c, v);
        }
      }
      assert OfPair(Notes(account, r, s, n), 0, v) == 0;
    }
  }

  /** The other accounts of the VIP are as they were. */
  ghost predicate SameNotes(r: Run, t: Run, v: string) {
    && OfVip(t.again, v) == OfVip(r.again, v)
    && forall c :: OfPair(t.again, c, v) == OfPair(r.again, c, v) && OfPair(t.putOff, c, v) == OfPair(r.putOff, c, v)
  }

  lemma SettledUndipped(r: Run, e: Event, v: string)
    requires e.Iteration? && Undipped(r, v) && ReadsAll(e, v)
    ensures var q := Settled(r, SampleOf(r, e)); Undipped(q, v) && SameNotes(r, q, v)
  {
    hide SampleOf, Notes, Watched, Bills, Totals, Charge, Firsts, Dip, OfPair, OfVip;
    var s := SampleOf(r, e);
    var n := |s.leases|;
    SampleShows(r, e, v);
    forall p: Pair | p in Watched(r, s, n) && p.1 == v ensures Watched(r, s, n)[p].dip == 0 {
      TotalsAreWatched(r, s, n, p);
    }
    NotesOfNothing(Repeat, r, s, n, v);
    NotesOfNothing(Delay, r, s, n, v);
    forall c ensures OfPair(r.again + Notes(Repeat, r, s, n), c, v) == OfPair(r.again, c, v)
      && OfVip(r.again + Notes(Repeat, r, s, n), v) == OfVip(r.again, v)
      && OfPair(r.putOff + Notes(Delay, r, s, n), c, v) == OfPair(r.putOff, c, v)
    {
      SumsJoin(r.again, Notes(Repeat, r, s, n), c, v);
      SumsJoin(r.putOff, Notes(Delay, r, s, n), c, v);
    }
    assert OfPair(r.again + Notes(Repeat, r, s, n), 0, v) == OfPair(r.again, 0, v);
  }

  lemma StepUndipped(r: Run, e: Event, v: string)
    requires Undipped(r, v) && ReadsAll(e, v)
    ensures Undipped(Step(r, e), v) && SameNotes(r, Step(r, e), v)
  {
    hide Settled, SampleOf, OfPair, OfVip, Bills, Charge;
    if e.Iteration? {
      SettledUndipped(r, e, v);
    }
  }

  lemma {:induction false} StepsUndipped(r: Run, es: seq<Event>, v: string)
    requires Undipped(r, v) && ReadsBoth(es, v)
    ensures Undipped(Steps(r, es), v) && SameNotes(r, Steps(r, es), v)
    decreases |es|
  {
    hide Step, Undipped, OfPair, OfVip;
    if es != [] {
      StepUndipped(r, es[0], v);
      StepsUndipped(Step(r, es[0]), es[1..], v);
    }
  }

  /**
   On every run, with dropped leases, handovers, entries lost or unread in either
   meter, failures and crashes: a pair is billed at most what it owes, plus what
   its dips make it bill again, plus the replays after crashes. While its VIP loses
   no entry the difference is exactly what dips put off; and where both meters are
   always read, nothing is billed again and nothing is put off.
   */
  lemma BilledIsOwed(used: map<int, int>, es: seq<Event>, c: int, v: string)
    ensures var r := Steps(Start(used), es);
      var due := OfPair(r.credits, c, v) + OfPair(r.again, c, v) + OfPair(r.replayed, c, v);
      && OfPair(r.ledger, c, v) <= due
      && (v !in r.resets ==> OfPair(r.ledger, c, v) + OfPair(r.putOff, c, v) == due)
      && (ReadsBoth(es, v) ==> OfPair(r.again, c, v) == OfPair(r.putOff, c, v) == 0)
  {
    hide Steps, OfPair, OfVip;
    NoBills(c, v);
    StepsExcess(Start(used), es, c, v);
    if ReadsBoth(es, v) {
      StepsUndipped(Start(used), es, v);
    }
  }

  // ---------- One VIP ----------

  predicate DistinctVips(leases: seq<Lease>) {
    forall i, j :: 0 <= i < j < |leases| ==> leases[i].vip != leases[j].vip
  }

  predicate Listed(es: seq<Event>) {
    forall i :: 0 <= i < |es| ==> es[i].Iteration? ==> DistinctVips(es[i].leases)
  }

  lemma {:induction false} NoBillsOnVip(s: Sample, last: map<string, nat>, n: nat, v: string)
    requires n <= |s.leases| && forall i :: 0 <= i < n ==> s.leases[i].vip != v
    ensures OfVip(Bills(s, last, n), v) == 0
  {
    if n > 0 {
      hide SidecarKey;
      NoBillsOnVip(s, last, n - 1, v);
      SumsJoin(Bills(s, last, n - 1), BillOf(s, last, n - 1), 0, v);
      var bill := BillOf(s, last, n - 1);
      if bill != [] {
        OneBill(bill[0], 0, v);
      }
    }
  }

  /** At most one lease of a listing bills a VIP. */
  lemma {:induction false} OneBillOnVip(s: Sample, last: map<string, nat>, n: nat, v: string)
    requires n <= |s.leases| && DistinctVips(s.leases)
    ensures OfVip(Bills(s, last, n), v) == 0
         || exists i :: 0 <= i < n && s.leases[i].vip == v && OfVip(Bills(s, last, n), v) == OfVip(BillOf(s, last, i), v)
  {
    if n > 0 {
      hide BillOf, OfVip;
      SumsJoin(Bills(s, last, n - 1), BillOf(s, last, n - 1), 0, v);
      if s.leases[n - 1].vip == v {
        NoBillsOnVip(s, last, n - 1, v);
      } else {
        OtherVipBillsNothing(s, last, n - 1, v);
        OneBillOnVip(s, last, n - 1, v);
      }
    }
  }

  lemma OtherVipBillsNothing(s: Sample, last: map<string, nat>, i: nat, v: string)
    requires i < |s.leases| && s.leases[i].vip != v
    ensures OfVip(BillOf(s, last, i), v) == 0
  {
    hide SidecarKey;
    var bill := BillOf(s, last, i);
    if bill != [] {
      OneBill(bill[0], 0, v);
    }
  }

  /** Bytes that passed on `v` since its first sample, plus what replays and dips added. */
  function Allowance(r: Run, v: string): int {
    OfVip(r.replayed, v) + OfVip(r.again, v) + (if v in r.first then Amount(r.passed, v) - r.first[v] else 0)
  }

  /** The VIP's bills are covered, with room for what its baseline still has to
      bill, the dip apart. */
  ghost predicate Covered(r: Run, p: Pair) {
    && OfVip(r.ledger, p.1) <= Allowance(r, p.1)
    && (p.1 in r.first ==> r.first[p.1] <= Amount(r.passed, p.1))
    && (p in r.watch ==>
          p.1 in r.first && Tracks(r, p)
          && OfVip(r.ledger, p.1) + Grown(Total(r, p.1), r.books.sidecar[KeyOf(p)]) <= Allowance(r, p.1) + r.watch[p].dip)
    && (forall q: Pair :: p in r.watch && q in r.watch && q.1 == p.1 ==> q == p)
  }

  ghost predicate AllCovered(r: Run) {
    Tracked(r) && forall p: Pair :: Covered(r, p)
  }

  /** A lease's note counts for its VIP. */
  lemma {:induction false} NoteCounts(account: Account, r: Run, s: Sample, n: nat, i: nat, v: string)
    requires i < n <= |s.leases|
    ensures OfVip(NoteOf(account, r, s, i), v) <= OfVip(Notes(account, r, s, n), v)
    decreases n
  {
    hide NoteOf, OfVip, OfPair;
    NotesGrow(account, r, s, n - 1, 0, v);
    if i < n - 1 {
      NoteCounts(account, r, s, n - 1, i, v);
    }
  }

  lemma RepeatCounts(r: Run, s: Sample, i: nat, p: Pair)
    requires i < |s.leases| && Metered(s, s.leases[i]) && s.leases[i].vip == p.1
    requires s.customers[s.leases[i].identity].id == p.0 && Billable(s.customers[s.leases[i].identity]) && p in r.watch
    ensures Again(r, s, p) <= OfVip(Notes(Repeat, r, s, |s.leases|), p.1)
  {
    hide Again, OfVip;
    NoteCounts(Repeat, r, s, |s.leases|, i, p.1);
    OneBill(Bill(p.0, p.1, Again(r, s, p)), p.0, p.1);
  }

  /** One listing adds to a VIP at most what its one baseline had left to bill. */
  lemma BillsOnVipCovered(r: Run, e: Event, v: string)
    requires e.Iteration? && AllCovered(r) && DistinctVips(e.leases)
    ensures var s := SampleOf(r, e);
      OfVip(r.ledger, v) + OfVip(Bills(s, r.books.sidecar, |s.leases|), v)
        <= Allowance(r, v) + OfVip(Notes(Repeat, r, s, |s.leases|), v)
  {
    hide SidecarKey, Bills, SampleOf, Notes, OfVip, Allowance, Dip;
    var s := SampleOf(r, e);
    var last := r.books.sidecar;
    SampleShows(r, e, v);
    assert Covered(r, (0, v));
    OneBillOnVip(s, last, |s.leases|, v);
    if OfVip(Bills(s, last, |s.leases|), v) != 0 {
      var i :| 0 <= i < |s.leases| && s.leases[i].vip == v
        && OfVip(Bills(s, last, |s.leases|), v) == OfVip(BillOf(s, last, i), v);
      NoBills(0, v);
      var c := s.customers[s.leases[i].identity];
      var p: Pair := (c.id, v);
      assert Tracks(r, p) && KeyOf(p) == SidecarKey(c.id, v);
      assert Covered(r, p);
      OneBill(Bill(c.id, v, Grown(s.counters[v], last[KeyOf(p)])), 0, v);
      RepeatCounts(r, s, i, p);
    }
  }

  lemma {:induction false} FirstsGrow(s: Sample, passed: map<string, nat>, first: map<string, nat>, n: nat, v: string)
    requires n <= |s.leases|
    ensures var after := Firsts(s, passed, first, n);
      && (v in first ==> v in after && after[v] == first[v])
      && (v in after && v !in first ==> after[v] == Amount(passed, v))
  {
    if n > 0 {
      FirstsGrow(s, passed, first, n - 1, v);
    }
  }

  lemma {:induction false} WatchedIsFirst(r: Run, s: Sample, n: nat, p: Pair)
    requires n <= |s.leases| && p in Watched(r, s, n)
    ensures p.1 in Firsts(s, r.passed, r.first, n)
  {
    if n > 0 {
      hide Dip;
      var l := s.leases[n - 1];
      if Metered(s, l) && p == (s.customers[l.identity].id, l.vip) {
      } else {
        WatchedIsFirst(r, s, n - 1, p);
        FirstsGrow(s, r.passed, Firsts(s, r.passed, r.first, n - 1), 0, p.1);
      }
    }
  }

  lemma {:induction false} WatchedFromLease(r: Run, s: Sample, n: nat, p: Pair) returns (i: nat)
    requires n <= |s.leases| && p in Watched(r, s, n)
    ensures i < n && s.leases[i].vip == p.1 && s.leases[i].identity in s.customers
    ensures s.customers[s.leases[i].identity].id == p.0
  {
    hide Dip;
    var l := s.leases[n - 1];
    if Metered(s, l) && p == (s.customers[l.identity].id, l.vip) {
      i := n - 1;
    } else {
      i := WatchedFromLease(r, s, n - 1, p);
    }
  }

  lemma WatchedOnce(r: Run, s: Sample, p: Pair, q: Pair)
    requires DistinctVips(s.leases) && p.1 == q.1
    requires p in Watched(r, s, |s.leases|) && q in Watched(r, s, |s.leases|)
    ensures p == q
  {
    hide Watched;
    var i := WatchedFromLease(r, s, |s.leases|, p);
    var j := WatchedFromLease(r, s, |s.leases|, q);
    assert i == j;
  }

  lemma SettledCovers(r: Run, e: Event, p: Pair)
    requires e.Iteration? && AllCovered(r) && DistinctVips(e.leases)
    ensures Covered(Settled(r, SampleOf(r, e)), p)
  {
    hide SidecarKey, Bills, Charge, Notes, Firsts, Totals, Watched, OfVip, SampleOf, Dip;
    var s := SampleOf(r, e);
    var q := Settled(r, s);
    var v := p.1;
    SampleShows(r, e, v);
    assert Covered(r, p) && Tracks(r, p);
    BillsOnVipCovered(r, e, v);
    SumsJoin(r.ledger, Bills(s, r.books.sidecar, |s.leases|), 0, v);
    SumsJoin(r.again, Notes(Repeat, r, s, |s.leases|), 0, v);
    FirstsGrow(s, r.passed, r.first, |s.leases|, v);
    SettledTracks(r, e, p);
    if p in q.watch {
      TotalsAreWatched(r, s, |s.leases|, p);
      WatchedIsFirst(r, s, |s.leases|, p);
      forall o: Pair | o in q.watch && o.1 == v ensures o == p {
        WatchedOnce(r, s, p, o);
      }
    }
  }

  lemma ReplayableCovers(r: Run, e: Event, p: Pair)
    requires e.Iteration? && AllCovered(r) && DistinctVips(e.leases)
    ensures Covered(Replayable(r, SampleOf(r, e)), p)
  {
    hide SidecarKey, Bills, Charge, OfVip;
    var s := SampleOf(r, e);
    var bills := Bills(s, r.books.sidecar, |s.leases|);
    assert Covered(r, p);
    SumsJoin(r.ledger, bills, 0, p.1);
    SumsJoin(r.replayed, bills, 0, p.1);
  }

  lemma StepCovers(r: Run, e: Event)
    requires AllCovered(r) && (e.Iteration? ==> DistinctVips(e.leases))
    ensures AllCovered(Step(r, e))
  {
    StepTracks(r, e);
    forall p: Pair ensures Covered(Step(r, e), p) {
      StepCoversPair(r, e, p);
    }
  }

  lemma StepCoversPair(r: Run, e: Event, p: Pair)
    requires AllCovered(r) && (e.Iteration? ==> DistinctVips(e.leases))
    ensures Covered(Step(r, e), p)
  {
    hide Step, SidecarKey, Settled, Replayable, OfVip, SampleOf;
    assert Covered(r, p) && Tracks(r, p);
    if e.Iteration? {
      StepOnBooks(r, e);
      SettledCovers(r, e, p);
      ReplayableCovers(r, e, p);
    } else {
      StepTracksPair(r, e, p);
      StepOnMeters(r, e, p.1);
    }
  }

  lemma {:induction false} StepsCover(r: Run, es: seq<Event>)
    requires AllCovered(r) && Listed(es)
    ensures AllCovered(Steps(r, es))
    decreases |es|
  {
    hide Step, AllCovered;
    if es != [] {
      StepCovers(r, es[0]);
      StepsCover(Step(r, es[0]), es[1..]);
    }
  }

  /**
   On every run whose listings name each VIP once: no two saved baselines share
   a VIP, and all that is ever billed on a VIP, to whichever customers, is at
   most what passed on it since its first sample, plus what dips make it bill
   again, which is nothing where both meters are always read, plus the replays
   after crashes.
   */
  lemma VipNeverOverbilled(used: map<int, int>, es: seq<Event>, v: string)
    requires Listed(es)
    ensures var r := Steps(Start(used), es);
      && OfVip(r.ledger, v) <= Allowance(r, v)
      && (ReadsBoth(es, v) ==> OfVip(r.again, v) == 0)
      && (forall c, d :: SidecarKey(c, v) in r.books.sidecar && SidecarKey(d, v) in r.books.sidecar ==> c == d)
  {
    hide Steps, SidecarKey, OfVip, OfPair;
    var r := Steps(Start(used), es);
    NoBills(0, v);
    StartIsCovered(used);
    StepsCover(Start(used), es);
    assert Covered(r, (0, v));
    if ReadsBoth(es, v) {
      StepsUndipped(Start(used), es, v);
    }
    forall c, d | SidecarKey(c, v) in r.books.sidecar && SidecarKey(d, v) in r.books.sidecar ensures c == d {
      assert KeyOf((c, v)) == SidecarKey(c, v) && KeyOf((d, v)) == SidecarKey(d, v);
      assert Tracks(r, (c, v)) && Tracks(r, (d, v));
      assert Covered(r, (c, v));
    }
  }

  lemma StartIsCovered(used: map<int, int>)
    ensures AllCovered(Start(used))
  {
  }
}
