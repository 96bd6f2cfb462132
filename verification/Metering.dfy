/** Byte metering with a sidecar of baselines: one iteration of the quota monitor (quota/quota-monitor.py). */
module Metering {
  import opened Chars

  // ---------- Sidecar keys ----------

  /** Python's `str` of an integer. */
  function IntText(n: int): (s: string)
    ensures s != []
    ensures forall i :: 0 <= i < |s| ==> s[i] != ':'
  {
    if n < 0 then "-" + Decimal(-n) else Decimal(n)
  }

  /** `_sidecar_key`. */
  function SidecarKey(customer: int, vip: string): string {
    IntText(customer) + ":" + vip
  }

  lemma IntTextInjective(a: int, b: int)
    requires IntText(a) == IntText(b)
    ensures a == b
  {
    assert IntText(a)[0] == IntText(b)[0];
    if a < 0 && b < 0 {
      assert IntText(a)[1..] == Decimal(-a) && IntText(b)[1..] == Decimal(-b);
      DecimalInjective(-a, -b);
    } else if a >= 0 && b >= 0 {
      DecimalInjective(a, b);
    }
  }

  /** Two pairs never share a sidecar key. */
  lemma SidecarKeyInjective(c: int, v: string, d: int, w: string)
    requires SidecarKey(c, v) == SidecarKey(d, w)
    ensures c == d && v == w
  {
    var a, b, k := IntText(c), IntText(d), SidecarKey(c, v);
    assert k[|a|] == ':' && k[|b|] == ':';
    assert forall i :: 0 <= i < |a| ==> k[i] != ':';
    assert forall i :: 0 <= i < |b| ==> k[i] != ':' by {
      assert forall i :: 0 <= i < |b| ==> SidecarKey(d, w)[i] == b[i];
    }
    assert |a| == |b|;
    assert a == k[..|a|] == b;
    assert v == k[|a| + 1..] == w;
    IntTextInjective(c, d);
  }

  // ---------- The two meters ----------

  function Amount(m: map<string, nat>, vip: string): nat {
    if vip in m then m[vip] else 0
  }

  /** A VIP that only one meter shows counts what that one shows. */
  function Summed(src: map<string, nat>, dst: map<string, nat>): map<string, nat> {
    map v | v in src.Keys + dst.Keys :: Amount(src, v) + Amount(dst, v)
  }

  /** `sample_counters`, on the bytes of the two meters as they were read. */
  method SampleCounters(src: map<string, nat>, dst: map<string, nat>) returns (out: map<string, nat>)
    ensures out == Summed(src, dst)
  {
    hide Amount;
    var all := src.Keys + dst.Keys;
    var rest := all;
    out := map[];
    while rest != {}
      invariant rest <= all
      invariant forall v :: v in out <==> v in all && v !in rest
      invariant forall v :: v in out ==> out[v] == Amount(src, v) + Amount(dst, v)
      decreases rest
    {
      var vip :| vip in rest;
      out := out[vip := Amount(src, vip) + Amount(dst, vip)];
      rest := rest - {vip};
    }
  }

  // ---------- One iteration ----------

  datatype Customer = Customer(id: int, isOperator: bool, isActive: bool)

  datatype Lease = Lease(vip: string, identity: string)

  /** What an iteration reads: the lease listing, the sum of both meters per VIP
      that either shows, and the customer of each mapped identity. */
  datatype Sample = Sample(leases: seq<Lease>, counters: map<string, nat>, customers: map<string, Customer>)

  /** One committed `update_used_bytes`. */
  datatype Bill = Bill(customer: int, vip: string, bytes: nat)

  /** What survives an iteration: the saved baselines and the customers' used bytes. */
  datatype Books = Books(sidecar: map<string, nat>, used: map<int, int>)

  /** Where an iteration stops. */
  datatype Fate = Finishes | FailsBeforeCommit | CrashesBeforeSave

  predicate Metered(s: Sample, l: Lease) {
    l.vip in s.counters && l.identity in s.customers
  }

  predicate Billable(c: Customer) {
    !c.isOperator && c.isActive
  }

  function Grown(total: nat, prior: nat): nat {
    if total > prior then total - prior else 0
  }

  /** The baselines after the first `n` leases. */
  function Totals(s: Sample, n: nat): map<string, nat>
    requires n <= |s.leases|
  {
    if n == 0 then map[]
    else
      var l := s.leases[n - 1];
      if Metered(s, l) then Totals(s, n - 1)[SidecarKey(s.customers[l.identity].id, l.vip) := s.counters[l.vip]]
      else Totals(s, n - 1)
  }

  /** What lease `i` is billed against the baselines `last`. */
  function BillOf(s: Sample, last: map<string, nat>, i: nat): seq<Bill>
    requires i < |s.leases|
  {
    var l := s.leases[i];
    if !Metered(s, l) then []
    else
      var c := s.customers[l.identity];
      var key := SidecarKey(c.id, l.vip);
      if Billable(c) && key in last && Grown(s.counters[l.vip], last[key]) > 0
      then [Bill(c.id, l.vip, Grown(s.counters[l.vip], last[key]))] else []
  }

  function Bills(s: Sample, last: map<string, nat>, n: nat): seq<Bill>
    requires n <= |s.leases|
  {
    if n == 0 then [] else Bills(s, last, n - 1) + BillOf(s, last, n - 1)
  }

  /** `UPDATE customers SET data_used_bytes = data_used_bytes + delta`, bill by bill. */
  function Charge(used: map<int, int>, bills: seq<Bill>): map<int, int>
    decreases |bills|
  {
    if bills == [] then used
    else
      var b := bills[|bills| - 1];
      var before := Charge(used, bills[..|bills| - 1]);
      if b.customer in before then before[b.customer := before[b.customer] + b.bytes] else before
  }

  /** Whether the iteration gets as far as its metering loop. */
  predicate Meters(s: Sample) {
    s.leases != [] && s.counters != map[]
  }

  /** The books after one iteration. */
  function After(b: Books, s: Sample, fate: Fate): Books {
    if s.leases == [] then (if fate.Finishes? then b.(sidecar := map[]) else b)
    else if !Meters(s) || fate.FailsBeforeCommit? then b
    else
      var used := Charge(b.used, Bills(s, b.sidecar, |s.leases|));
      if fate.CrashesBeforeSave? then b.(used := used) else Books(Totals(s, |s.leases|), used)
  }

  class QuotaMonitor {
    var sidecar: map<string, nat>
    var used: map<int, int>

    ghost function Now(): Books
      reads this
    {
      Books(sidecar, used)
    }

    /** The metering part of `run_once`, stopped where `fate` says. */
    method RunOnce(s: Sample, fate: Fate)
      modifies this
      ensures Now() == After(old(Now()), s, fate)
    {
      hide SidecarKey, Charge, Grown;
      if s.leases == [] {
        if fate.Finishes? {
          sidecar := map[];
        }
        return;
      }
      if s.counters == map[] {
        return;
      }
      var last := sidecar;
      var newTotals: map<string, nat> := map[];
      var open := used;
      ChargeNothing(used);
      for n := 0 to |s.leases|
        invariant newTotals == Totals(s, n)
        invariant open == Charge(used, Bills(s, last, n))
        invariant Now() == old(Now())
      {
        assert Bills(s, last, n) + [] == Bills(s, last, n);
        var l := s.leases[n];
        if l.vip !in s.counters || l.identity !in s.customers {
          continue;
        }
        var total := s.counters[l.vip];
        var c := s.customers[l.identity];
        var key := SidecarKey(c.id, l.vip);
        if Billable(c) && key in last {
          var delta := Grown(total, last[key]);
          if delta > 0 {
            ChargeOne(used, Bills(s, last, n), Bill(c.id, l.vip, delta));
            if c.id in open {
              open := open[c.id := open[c.id] + delta];
            }
          }
        }
        newTotals := newTotals[key := total];
      }
      if fate.FailsBeforeCommit? {
        return;
      }
      used := open;
      if fate.CrashesBeforeSave? {
        return;
      }
      sidecar := newTotals;
    }
  }

  lemma ChargeNothing(used: map<int, int>)
    ensures Charge(used, []) == used
  {
  }

  lemma ChargeOne(used: map<int, int>, bills: seq<Bill>, b: Bill)
    ensures var before := Charge(used, bills);
      Charge(used, bills + [b])
        == if b.customer in before then before[b.customer := before[b.customer] + b.bytes] else before
  {
    assert (bills + [b])[..|bills|] == bills;
  }

  // ---------- Who is billed ----------

  /**
   Exactly the leases whose record is found and metered, whose customer is active and
   no operator, and whose meters show more than the saved baseline are billed, once
   each: the customer, for the VIP, the difference.
   */
  lemma LeaseIsBilledExactly(s: Sample, last: map<string, nat>, i: nat)
    requires i < |s.leases|
    ensures var l := s.leases[i];
      BillOf(s, last, i) ==
        if l.vip in s.counters && l.identity in s.customers
           && !s.customers[l.identity].isOperator && s.customers[l.identity].isActive
           && SidecarKey(s.customers[l.identity].id, l.vip) in last
           && s.counters[l.vip] > last[SidecarKey(s.customers[l.identity].id, l.vip)]
        then [Bill(s.customers[l.identity].id, l.vip,
                   s.counters[l.vip] - last[SidecarKey(s.customers[l.identity].id, l.vip)])]
        else []
  {
    hide SidecarKey;
  }

  /** Every bill of an iteration is one of these. */
  lemma {:induction false} BillsNameBillable(s: Sample, last: map<string, nat>, n: nat, b: Bill)
    requires n <= |s.leases| && b in Bills(s, last, n)
    ensures exists i ::
      && 0 <= i < n && s.leases[i].vip == b.vip && Metered(s, s.leases[i])
      && var c := s.customers[s.leases[i].identity]; c.id == b.customer && !c.isOperator && c.isActive
    decreases n
  {
    hide SidecarKey;
    if b in Bills(s, last, n - 1) {
      BillsNameBillable(s, last, n - 1, b);
    } else {
      LeaseIsBilledExactly(s, last, n - 1);
      assert b in BillOf(s, last, n - 1);
      assert s.leases[n - 1].vip == b.vip;
    }
  }

  lemma {:induction false} ChargeSparesOthers(used: map<int, int>, bills: seq<Bill>, c: int)
    requires forall i :: 0 <= i < |bills| ==> bills[i].customer != c
    ensures Charge(used, bills).Keys == used.Keys && (c in used ==> Charge(used, bills)[c] == used[c])
    decreases |bills|
  {
    if bills != [] {
      ChargeSparesOthers(used, bills[..|bills| - 1], c);
    }
  }

  /** An iteration in which every sampled record of a customer is an operator or inactive leaves its used bytes. */
  lemma SparedCustomerKeepsUsed(b: Books, s: Sample, fate: Fate, c: int)
    requires c in b.used
    requires forall i :: 0 <= i < |s.leases| && Metered(s, s.leases[i]) ==>
      var d := s.customers[s.leases[i].identity]; d.id == c ==> d.isOperator || !d.isActive
    ensures c in After(b, s, fate).used && After(b, s, fate).used[c] == b.used[c]
  {
    hide Charge, Totals, Bills;
    var bills := Bills(s, b.sidecar, |s.leases|);
    forall i | 0 <= i < |bills| ensures bills[i].customer != c {
      BillsNameBillable(s, b.sidecar, |s.leases|, bills[i]);
    }
    ChargeSparesOthers(b.used, bills, c);
  }

  // ---------- What each end of an iteration leaves ----------

  /** A key is the customer's number and the VIP with a colon between them. */
  lemma KeyText(id: nat, vip: string)
    ensures SidecarKey(id, vip) == Decimal(id) + ":" + vip
    ensures SidecarKey(0, "10.99.0.2") == "0:10.99.0.2" && SidecarKey(7, "10.99.0.2") == "7:10.99.0.2"
  {
    assert Decimal(0) == "0" && Decimal(7) == "7";
  }

  /**
   Nothing is saved or committed by an iteration that fails before its commit, or finds
   no meter; a crash before the save keeps the old baselines; a finished one without
   leases clears them; and one with leases and meters keeps a baseline for exactly the
   pairs it sampled, of what it read.
   */
  lemma IterationFates(b: Books, s: Sample, fate: Fate)
    ensures fate.FailsBeforeCommit? || (s.leases != [] && s.counters == map[]) ==> After(b, s, fate) == b
    ensures fate.CrashesBeforeSave? ==> After(b, s, fate).sidecar == b.sidecar
    ensures s.leases == [] ==> After(b, s, fate).used == b.used
    ensures s.leases == [] && fate.Finishes? ==> After(b, s, fate).sidecar == map[]
    ensures s.leases != [] && s.counters != map[] && fate.Finishes? ==>
      forall key :: key in After(b, s, fate).sidecar <==>
        exists i :: 0 <= i < |s.leases| && s.leases[i].vip in s.counters && s.leases[i].identity in s.customers
          && key == SidecarKey(s.customers[s.leases[i].identity].id, s.leases[i].vip)
  {
    hide Charge, Bills, Totals, SidecarKey;
    forall key ensures key in Totals(s, |s.leases|) <==>
        exists i :: 0 <= i < |s.leases| && s.leases[i].vip in s.counters && s.leases[i].identity in s.customers
          && key == SidecarKey(s.customers[s.leases[i].identity].id, s.leases[i].vip)
    {
      TotalsKeys(s, |s.leases|, key);
    }
  }

  lemma {:induction false} TotalsKeys(s: Sample, n: nat, key: string)
    requires n <= |s.leases|
    ensures key in Totals(s, n) <==>
      exists i :: 0 <= i < n && s.leases[i].vip in s.counters && s.leases[i].identity in s.customers
        && key == SidecarKey(s.customers[s.leases[i].identity].id, s.leases[i].vip)
  {
    hide SidecarKey;
    if n > 0 {
      TotalsKeys(s, n - 1, key);
    }
  }
}
