/** The sliding-window login limiter (host/vpn-portal/app.py, host/vpn-portal/portal_auth.py). */
module RateLimit {

  const LIMIT: nat := 5
  const WINDOW: real := 60.0

  /** The times younger than the window. */
  function Young(times: seq<real>, now: real): seq<real> {
    if times == [] then []
    else (if now - times[0] < WINDOW then [times[0]] else []) + Young(times[1..], now)
  }

  function Get(m: map<string, seq<real>>, ip: string): seq<real> {
    if ip in m then m[ip] else []
  }

  predicate Allows(attempts: map<string, seq<real>>, ip: string, now: real) {
    |Young(Get(attempts, ip), now)| < LIMIT
  }

  /** The store after an attempt; a refusal leaves it alone. */
  function Attempted(attempts: map<string, seq<real>>, ip: string, now: real): map<string, seq<real>> {
    if Allows(attempts, ip, now) then attempts[ip := Young(Get(attempts, ip), now) + [now]] else attempts
  }

  class Limiter {
    var attempts: map<string, seq<real>>

    /** `_portal_rate_limit`; HTTP 429 is `false`. `rate_limit` differs only in leaving an empty entry behind a first look. */
    method Attempt(ip: string, now: real) returns (ok: bool)
      modifies this
      ensures ok == Allows(old(attempts), ip, now)
      ensures attempts == Attempted(old(attempts), ip, now)
    {
      var stored := if ip in attempts then attempts[ip] else [];
      var young: seq<real> := [];
      for i := 0 to |stored|
        invariant young == Young(stored[..i], now) && attempts == old(attempts)
      {
        YoungJoin(stored[..i], [stored[i]], now);
        assert stored[..i + 1] == stored[..i] + [stored[i]];
        assert [stored[i]][1..] == [];
        if now - stored[i] < WINDOW {
          young := young + [stored[i]];
        }
      }
      assert stored[..|stored|] == stored;
      if |young| >= LIMIT {
        return false;
      }
      attempts := attempts[ip := young + [now]];
      ok := true;
    }
  }

  lemma {:induction false} YoungJoin(a: seq<real>, b: seq<real>, now: real)
    ensures Young(a + b, now) == Young(a, now) + Young(b, now)
  {
    if a == [] {
      assert a + b == b;
    } else {
      assert (a + b)[1..] == a[1..] + b;
      YoungJoin(a[1..], b, now);
    }
  }

  // ---------- Runs ----------

  datatype Login = Login(ip: string, at: real)

  function After(logins: seq<Login>): map<string, seq<real>> {
    if logins == [] then map[]
    else
      var e := logins[|logins| - 1];
      Attempted(After(logins[..|logins| - 1]), e.ip, e.at)
  }

  /** The times at which attempts of `ip` were accepted, in order. */
  function Accepted(logins: seq<Login>, ip: string): seq<real> {
    if logins == [] then []
    else
      var before, e := logins[..|logins| - 1], logins[|logins| - 1];
      Accepted(before, ip) + (if e.ip == ip && Allows(After(before), ip, e.at) then [e.at] else [])
  }

  predicate Clocked(logins: seq<Login>) {
    forall i, j :: 0 <= i < j < |logins| ==> logins[i].at <= logins[j].at
  }

  lemma {:induction false} YoungTwice(times: seq<real>, earlier: real, now: real)
    requires earlier <= now
    ensures Young(Young(times, earlier), now) == Young(times, now)
  {
    if times != [] {
      YoungTwice(times[1..], earlier, now);
      var first := if earlier - times[0] < WINDOW then [times[0]] else [];
      YoungJoin(first, Young(times[1..], earlier), now);
      if first != [] {
        assert first[1..] == [];
      }
    }
  }

  /** The pruned store always knows every accept that is still young. */
  lemma {:induction false} StoreKnowsYoung(logins: seq<Login>, ip: string, now: real)
    requires Clocked(logins) && forall i :: 0 <= i < |logins| ==> logins[i].at <= now
    ensures Young(Get(After(logins), ip), now) == Young(Accepted(logins, ip), now)
    decreases |logins|
  {
    if logins != [] {
      var before, e := logins[..|logins| - 1], logins[|logins| - 1];
      StoreKnowsYoung(before, ip, now);
      if e.ip == ip && Allows(After(before), ip, e.at) {
        var stored := Get(After(before), ip);
        YoungTwice(stored, e.at, now);
        YoungJoin(Young(stored, e.at), [e.at], now);
        YoungJoin(Accepted(before, ip), [e.at], now);
      } else {
        assert Accepted(logins, ip) == Accepted(before, ip);
      }
    }
  }

  lemma {:induction false} StoreIsShort(logins: seq<Login>, ip: string)
    ensures |Get(After(logins), ip)| <= LIMIT
    decreases |logins|
  {
    if logins != [] {
      StoreIsShort(logins[..|logins| - 1], ip);
    }
  }

  /** Once a time is young, so are all later ones. */
  lemma {:induction false} YoungSuffix(times: seq<real>, k: nat, now: real)
    requires k < |times| && now - times[k] < WINDOW
    requires forall i, j :: 0 <= i < j < |times| ==> times[i] <= times[j]
    ensures |Young(times, now)| >= |times| - k
    decreases |times|
  {
    if k > 0 {
      YoungSuffix(times[1..], k - 1, now);
    } else {
      YoungAll(times, now);
    }
  }

  lemma {:induction false} YoungAll(times: seq<real>, now: real)
    requires forall i :: 0 <= i < |times| ==> now - times[i] < WINDOW
    ensures Young(times, now) == times
  {
    if times != [] {
      YoungAll(times[1..], now);
    }
  }

  lemma {:induction false} AcceptedInOrder(logins: seq<Login>, ip: string)
    requires Clocked(logins)
    ensures forall i, j :: 0 <= i < j < |Accepted(logins, ip)| ==> Accepted(logins, ip)[i] <= Accepted(logins, ip)[j]
    ensures logins != [] ==>
      forall i :: 0 <= i < |Accepted(logins, ip)| ==> Accepted(logins, ip)[i] <= logins[|logins| - 1].at
    decreases |logins|
  {
    if logins != [] {
      AcceptedInOrder(logins[..|logins| - 1], ip);
    }
  }

  /** Accepts that are five apart are at least a window apart. */
  ghost predicate Spaced(times: seq<real>) {
    forall k :: 0 <= k < |times| - LIMIT ==> times[k + LIMIT] - times[k] >= WINDOW
  }

  lemma {:induction false} AcceptsAreSpaced(logins: seq<Login>, ip: string)
    requires Clocked(logins)
    ensures Spaced(Accepted(logins, ip))
    decreases |logins|
  {
    if logins != [] {
      var before, e := logins[..|logins| - 1], logins[|logins| - 1];
      AcceptsAreSpaced(before, ip);
      var h := Accepted(before, ip);
      if e.ip == ip && Allows(After(before), ip, e.at) {
        StoreKnowsYoung(before, ip, e.at);
        AcceptedInOrder(before, ip);
        if |h| >= LIMIT {
          var k := |h| - LIMIT;
          assert |Young(h, e.at)| < |h| - k;
          if e.at - h[k] < WINDOW {
            YoungSuffix(h, k, e.at);
            assert false;
          }
        }
      } else {
        assert Accepted(logins, ip) == h;
      }
    }
  }

  /**
   On every sequence of attempts from any mix of addresses under a clock that
   never goes back: an attempt is refused exactly when five accepts of its own
   address are younger than sixty seconds, accepts of one address that are five
   apart are at least sixty seconds apart, and no stored list is longer than five.
   */
  lemma LimiterIsExact(logins: seq<Login>, ip: string, now: real)
    requires Clocked(logins) && forall i :: 0 <= i < |logins| ==> logins[i].at <= now
    ensures !Allows(After(logins), ip, now) <==> |Young(Accepted(logins, ip), now)| == LIMIT
    ensures |Young(Accepted(logins, ip), now)| <= LIMIT
    ensures Spaced(Accepted(logins, ip))
    ensures |Get(After(logins), ip)| <= LIMIT
  {
    StoreKnowsYoung(logins, ip, now);
    StoreIsShort(logins, ip);
    YoungIsShorter(Get(After(logins), ip), now);
    AcceptsAreSpaced(logins, ip);
  }

  lemma {:induction false} YoungIsShorter(times: seq<real>, now: real)
    ensures |Young(times, now)| <= |times|
  {
    if times != [] {
      YoungIsShorter(times[1..], now);
    }
  }

  /** Among times in order of which at most five are young, the fifth from the end is young
      exactly when five are. */
  lemma FifthFromEnd(times: seq<real>, now: real)
    requires forall i, j :: 0 <= i < j < |times| ==> times[i] <= times[j]
    requires |Young(times, now)| <= 5
    ensures |Young(times, now)| == 5 <==> |times| >= 5 && now - times[|times| - 5] < 60.0
  {
    YoungIsShorter(times, now);
    if |times| >= 5 {
      var k := |times| - 5;
      if now - times[k] < 60.0 {
        YoungSuffix(times, k, now);
      } else {
        YoungJoin(times[..k + 1], times[k + 1..], now);
        assert times[..k + 1] + times[k + 1..] == times;
        NoneYoung(times[..k + 1], now);
        YoungIsShorter(times[k + 1..], now);
      }
    }
  }

  lemma {:induction false} NoneYoung(times: seq<real>, now: real)
    requires forall i :: 0 <= i < |times| ==> now - times[i] >= 60.0
    ensures Young(times, now) == []
  {
    if times != [] {
      NoneYoung(times[1..], now);
    }
  }

  /**
   In numbers: an attempt is refused exactly when its address has at least five accepts
   and the fifth from the end is less than sixty seconds old; and any accept is at least
   sixty seconds after the one five before it.
   */
  lemma FifthAcceptDecides(logins: seq<Login>, ip: string, now: real)
    requires Clocked(logins) && forall i :: 0 <= i < |logins| ==> logins[i].at <= now
    ensures var accepts := Accepted(logins, ip);
      && (!Allows(After(logins), ip, now) <==> |accepts| >= 5 && now - accepts[|accepts| - 5] < 60.0)
      && forall k :: 5 <= k < |accepts| ==> accepts[k] - accepts[k - 5] >= 60.0
  {
    hide Young, Allows, After, Accepted;
    var accepts := Accepted(logins, ip);
    LimiterIsExact(logins, ip, now);
    AcceptedInOrder(logins, ip);
    FifthFromEnd(accepts, now);
    forall k | 5 <= k < |accepts| ensures accepts[k] - accepts[k - 5] >= 60.0 {
      assert accepts[k - 5 + LIMIT] - accepts[k - 5] >= WINDOW;
    }
  }
}
