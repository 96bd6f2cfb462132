/**
 Sliding sessions of customers and operators (host/vpn-portal/portal_auth.py),
 against an ideal account of when a session is good.
 */
module Sessions {

  const PORTAL_TTL: int := 3600
  const CUSTOMER_MAX_SESSION_AGE: int := 7 * 86400
  const OPERATOR_TTL: int := 8 * 3600

  /** The customer functions and their operator twins: the first have an age cap, the second a revoked column. */
  datatype Side = Customers | Operators

  datatype Row = Row(owner: string, created: int, lastActive: int, expires: int, revoked: bool)

  /** Whether the driver's row count of an UPDATE is of the rows matched or only of those changed. */
  datatype Counting = Matched | Changed

  function Ttl(side: Side): int {
    if side.Customers? then PORTAL_TTL else OPERATOR_TTL
  }

  /** The WHERE clause of the verifying UPDATEs. */
  predicate Live(side: Side, row: Row, now: int) {
    && row.expires >= now
    && (side.Customers? ==> row.created > now - CUSTOMER_MAX_SESSION_AGE)
    && (side.Operators? ==> !row.revoked)
  }

  /** The WHERE clause of the clean-up after a failed sliding verify. */
  predicate Stale(side: Side, row: Row, now: int) {
    row.expires < now || (side.Customers? && row.created <= now - CUSTOMER_MAX_SESSION_AGE)
  }

  // ---------- The statements as functions of the table ----------

  type Table = map<string, Row>

  /** A session id that is taken makes the INSERT fail. */
  function Created(t: Table, side: Side, id: string, owner: string, now: int): Table {
    if id in t then t else t[id := Row(owner, now, now, now + Ttl(side), false)]
  }

  function Slid(side: Side, row: Row, now: int): Row {
    row.(lastActive := now, expires := now + Ttl(side))
  }

  /** Whether a verify is accepted. */
  predicate Accepts(t: Table, side: Side, id: string, now: int, slide: bool, counting: Counting) {
    id in t && Live(side, t[id], now) && (counting.Matched? || (slide && Slid(side, t[id], now) != t[id]))
  }

  /** The table after a verify. */
  function Verified(t: Table, side: Side, id: string, now: int, slide: bool): Table {
    if !slide || id !in t then t
    else if Live(side, t[id], now) then t[id := Slid(side, t[id], now)]
    else if Stale(side, t[id], now) then t - {id}
    else t
  }

  function Purged(t: Table, now: int): Table {
    map id | id in t && t[id].expires >= now :: t[id]
  }

  /** `owner` empty means everybody. */
  function Revoked(t: Table, owner: string): Table {
    map id | id in t :: if owner == "" || t[id].owner == owner then t[id].(revoked := true) else t[id]
  }

  /** The rows a revocation changes. */
  function Revocable(t: Table, owner: string): set<string> {
    set id | id in t && (owner == "" || t[id].owner == owner) && !t[id].revoked
  }

  class PortalAuth {
    const side: Side
    const counting: Counting
    var rows: Table

    constructor (side: Side, counting: Counting)
      ensures this.side == side && this.counting == counting && rows == map[]
    {
      this.side, this.counting, rows := side, counting, map[];
    }

    /** `create_session`, `create_operator_session`. */
    method Create(id: string, owner: string, now: int) returns (ok: bool)
      modifies this`rows
      ensures ok == (id !in old(rows)) && rows == Created(old(rows), side, id, owner, now)
    {
      if id in rows {
        return false;
      }
      var expires := now + (if side.Customers? then PORTAL_TTL else OPERATOR_TTL);
      rows := rows[id := Row(owner, now, now, expires, false)];
      ok := true;
    }

    /** One UPDATE of the session's row where it is live; the row count. */
    method UpdateLive(id: string, now: int, slide: bool) returns (count: nat)
      modifies this`rows
      ensures rows == if slide && id in old(rows) && Live(side, old(rows)[id], now)
        then old(rows)[id := Slid(side, old(rows)[id], now)] else old(rows)
      ensures count == if Accepts(old(rows), side, id, now, slide, counting) then 1 else 0
    {
      if id !in rows || !Live(side, rows[id], now) {
        return 0;
      }
      var updated := if slide then Slid(side, rows[id], now) else rows[id];
      count := if counting.Matched? || updated != rows[id] then 1 else 0;
      if slide {
        rows := rows[id := updated];
      }
    }

    /** `verify_session`, `verify_operator_session`. */
    method Verify(id: string, now: int, slide: bool) returns (info: seq<Row>)
      modifies this`rows
      ensures rows == Verified(old(rows), side, id, now, slide)
      ensures info == if Accepts(old(rows), side, id, now, slide, counting) then [rows[id]] else []
    {
      var count := UpdateLive(id, now, slide);
      if count == 0 {
        if slide && id in rows && Stale(side, rows[id], now) {
          rows := rows - {id};
        }
        return [];
      }
      var row := rows[id];
      if side.Operators? && row.revoked {
        return [];
      }
      info := [row];
    }

    /** `delete_session`, `delete_operator_session`. */
    method Delete(id: string)
      modifies this`rows
      ensures rows == old(rows) - {id}
    {
      rows := rows - {id};
    }

    /** `purge_expired_sessions`, `purge_expired_operator_sessions`. */
    method Purge(now: int) returns (count: nat)
      modifies this`rows
      ensures rows == Purged(old(rows), now)
      ensures count == |old(rows)| - |rows|
    {
      var kept := map id | id in rows && rows[id].expires >= now :: rows[id];
      KeptAreFewer(rows, kept);
      count := |rows| - |kept|;
      rows := kept;
    }

    /** `revoke_all_operator_sessions`: one UPDATE over the rows it matches; the row count. */
    method RevokeAll(owner: string) returns (count: nat)
      modifies this`rows
      ensures rows == Revoked(old(rows), owner)
      ensures count == |Revocable(old(rows), owner)|
    {
      hide RevokedAmong, Revocable;
      ghost var before := rows;
      var todo := rows.Keys;
      count := 0;
      NoneRevoked(before, owner);
      while todo != {}
        invariant todo <= before.Keys && rows == RevokedAmong(before, owner, before.Keys - todo)
        invariant count == |Revocable(before, owner) * (before.Keys - todo)|
        decreases |todo|
      {
        var id :| id in todo;
        RevokeRow(before, owner, todo, id);
        CountRow(before, owner, todo, id);
        if (owner == "" || rows[id].owner == owner) && !rows[id].revoked {
          rows := rows[id := rows[id].(revoked := true)];
          count := count + 1;
        }
        todo := todo - {id};
      }
      AllRevoked(before, owner);
    }
  }

  /** The table with the revocation carried out for some ids. */
  function RevokedAmong(t: Table, owner: string, ids: set<string>): Table {
    map id | id in t :: if id in ids && (owner == "" || t[id].owner == owner) then t[id].(revoked := true) else t[id]
  }

  lemma NoneRevoked(t: Table, owner: string)
    ensures RevokedAmong(t, owner, t.Keys - t.Keys) == t && |Revocable(t, owner) * (t.Keys - t.Keys)| == 0
  {
    assert Revocable(t, owner) * (t.Keys - t.Keys) == {};
  }

  lemma AllRevoked(t: Table, owner: string)
    ensures RevokedAmong(t, owner, t.Keys - {}) == Revoked(t, owner)
    ensures Revocable(t, owner) * (t.Keys - {}) == Revocable(t, owner)
  {
    assert Revocable(t, owner) <= t.Keys;
  }

  /** Whether a revocation changes this row. */
  predicate Changes(row: Row, owner: string) {
    (owner == "" || row.owner == owner) && !row.revoked
  }

  lemma RevokeRow(t: Table, owner: string, todo: set<string>, id: string)
    requires todo <= t.Keys && id in todo
    ensures var now := RevokedAmong(t, owner, t.Keys - todo);
      && id in now && now[id] == t[id]
      && RevokedAmong(t, owner, t.Keys - (todo - {id}))
           == if Changes(t[id], owner) then now[id := now[id].(revoked := true)] else now
  {
  }

  lemma CountRow(t: Table, owner: string, todo: set<string>, id: string)
    requires todo <= t.Keys && id in todo
    ensures |Revocable(t, owner) * (t.Keys - (todo - {id}))|
         == |Revocable(t, owner) * (t.Keys - todo)| + if Changes(t[id], owner) then 1 else 0
  {
    var done := Revocable(t, owner) * (t.Keys - todo);
    assert Revocable(t, owner) * (t.Keys - (todo - {id})) == if Changes(t[id], owner) then done + {id} else done;
  }

  lemma KeptAreFewer(t: Table, kept: Table)
    requires kept.Keys <= t.Keys
    ensures |kept| <= |t|
  {
    SubsetIsSmaller(kept.Keys, t.Keys);
  }

  lemma {:induction false} SubsetIsSmaller(a: set<string>, b: set<string>)
    requires a <= b
    ensures |a| <= |b|
    decreases |a|
  {
    if a != {} {
      var x :| x in a;
      SubsetIsSmaller(a - {x}, b - {x});
    }
  }

  // ---------- Runs ----------

  datatype Event =
    | Create(id: string, owner: string, at: int)
    | Verify(id: string, slide: bool, at: int)
    | Delete(id: string, at: int)
    | Revoke(owner: string, at: int)
    | Purge(at: int)

  function Next(t: Table, side: Side, e: Event): Table {
    match e
    case Create(id, owner, now) => Created(t, side, id, owner, now)
    case Verify(id, slide, now) => Verified(t, side, id, now, slide)
    case Delete(id, _) => t - {id}
    case Revoke(owner, _) => if side.Operators? then Revoked(t, owner) else t
    case Purge(now) => Purged(t, now)
  }

  function After(side: Side, es: seq<Event>): Table {
    if es == [] then map[] else Next(After(side, es[..|es| - 1]), side, es[|es| - 1])
  }

  // ---------- The ideal account ----------

  /** When a session was created and last slid, and whether it is still open:
      neither deleted nor, for an operator, revoked. */
  datatype Session = Session(owner: string, created: int, slid: int, open: bool)

  type Account = map<string, Session>

  /** A session is good up to its time after its last slide and, for a customer, below the age cap. */
  predicate Good(side: Side, s: Session, now: int) {
    && s.open
    && now <= s.slid + Ttl(side)
    && (side.Customers? ==> now < s.created + CUSTOMER_MAX_SESSION_AGE)
  }

  /** Verifies move nothing but the last slide of a good session; purges do nothing. */
  function NextAccount(a: Account, side: Side, e: Event): Account {
    match e
    case Create(id, owner, now) => a[id := Session(owner, now, now, true)]
    case Verify(id, slide, now) => if slide && id in a && Good(side, a[id], now) then a[id := a[id].(slid := now)] else a
    case Delete(id, _) => if id in a then a[id := a[id].(open := false)] else a
    case Revoke(owner, _) =>
      if side.Operators? then
        map id | id in a :: if owner == "" || a[id].owner == owner then a[id].(open := false) else a[id]
      else a
    case Purge(_) => a
  }

  function AccountAfter(side: Side, es: seq<Event>): Account {
    if es == [] then map[] else NextAccount(AccountAfter(side, es[..|es| - 1]), side, es[|es| - 1])
  }

  /** The clock never goes back, and no session id is drawn twice. */
  predicate Proper(es: seq<Event>) {
    && (forall i, j :: 0 <= i < j < |es| ==> es[i].at <= es[j].at)
    && (forall i, j :: 0 <= i < j < |es| && es[i].Create? && es[j].Create? ==> es[i].id != es[j].id)
  }

  /** The row of a session says what the account says; a session without a row is closed or past its time. */
  ghost predicate Agree(side: Side, t: Table, a: Account, id: string, clock: int) {
    && (id in t ==>
          && id in a
          && t[id].owner == a[id].owner && t[id].created == a[id].created
          && t[id].lastActive == a[id].slid && t[id].expires == a[id].slid + Ttl(side)
          && (side.Operators? ==> t[id].revoked == !a[id].open)
          && (side.Customers? ==> a[id].open))
    && (id in a && id !in t ==> !Good(side, a[id], clock))
  }

  lemma GoodFades(side: Side, s: Session, clock: int, now: int)
    requires clock <= now && !Good(side, s, clock)
    ensures !Good(side, s, now)
  {
  }

  /** On agreeing states a verify is accepted exactly when the session is good. */
  lemma AgreeAccepts(side: Side, t: Table, a: Account, id: string, clock: int, now: int, slide: bool)
    requires Agree(side, t, a, id, clock) && clock <= now
    ensures Accepts(t, side, id, now, slide, Matched) <==> id in a && Good(side, a[id], now)
    ensures Accepts(t, side, id, now, slide, Changed) ==> id in a && Good(side, a[id], now)
  {
    if id in a && id !in t {
      GoodFades(side, a[id], clock, now);
    }
  }

  lemma NextAgrees(side: Side, t: Table, a: Account, e: Event, id: string, clock: int)
    requires Agree(side, t, a, id, clock) && clock <= e.at
    requires e.Create? ==> e.id !in a && e.id !in t
    ensures Agree(side, Next(t, side, e), NextAccount(a, side, e), id, e.at)
  {
    if id in a && id !in t {
      GoodFades(side, a[id], clock, e.at);
    }
  }

  /** Only created sessions have rows or accounts. */
  lemma {:induction false} OnlyCreated(side: Side, es: seq<Event>, id: string)
    requires forall i :: 0 <= i < |es| && es[i].Create? ==> es[i].id != id
    ensures id !in After(side, es) && id !in AccountAfter(side, es)
    decreases |es|
  {
    if es != [] {
      OnlyCreated(side, es[..|es| - 1], id);
    }
  }

  lemma {:induction false} RunAgrees(side: Side, es: seq<Event>, id: string, clock: int)
    requires Proper(es) && (es != [] ==> clock == es[|es| - 1].at)
    ensures Agree(side, After(side, es), AccountAfter(side, es), id, clock)
    decreases |es|
  {
    hide Next, NextAccount, Agree;
    if es == [] {
      NothingAgrees(side, id, clock);
    } else {
      var before, e := es[..|es| - 1], es[|es| - 1];
      ProperBefore(es);
      var earlier := if before == [] then e.at else before[|before| - 1].at;
      RunAgrees(side, before, id, earlier);
      if e.Create? {
        OnlyCreated(side, before, e.id);
      }
      NextAgrees(side, After(side, before), AccountAfter(side, before), e, id, earlier);
    }
  }

  lemma NothingAgrees(side: Side, id: string, clock: int)
    ensures Agree(side, map[], map[], id, clock)
  {
  }

  lemma ProperBefore(es: seq<Event>)
    requires Proper(es) && es != []
    ensures var before, e := es[..|es| - 1], es[|es| - 1];
      && Proper(before)
      && (before != [] ==> before[|before| - 1].at <= e.at)
      && (e.Create? ==> forall i :: 0 <= i < |before| && before[i].Create? ==> before[i].id != e.id)
  {
  }

  /**
   On every run of creates, verifies, deletes, revocations and purges: a verify
   is accepted exactly when its session is good by the ideal account, in which
   purges and clean-ups do not appear; so none of them ever removes a session a
   later verify could accept. Counting only changed rows can refuse more, never
   accept more.
   */
  lemma AcceptedExactlyWhenGood(side: Side, es: seq<Event>, id: string, now: int, slide: bool)
    requires Proper(es) && (es != [] ==> es[|es| - 1].at <= now)
    ensures var t, a := After(side, es), AccountAfter(side, es);
      && (Accepts(t, side, id, now, slide, Matched) <==> id in a && Good(side, a[id], now))
      && (Accepts(t, side, id, now, slide, Changed) ==> id in a && Good(side, a[id], now))
  {
    var clock := if es == [] then now else es[|es| - 1].at;
    RunAgrees(side, es, id, clock);
    AgreeAccepts(side, After(side, es), AccountAfter(side, es), id, clock, now, slide);
  }

  /**
   The same in seconds, side by side: a customer's session lasts an hour after its last
   slide and never reaches seven days; an operator's lasts eight hours, without a cap.
   */
  lemma AcceptedForSoLong(es: seq<Event>, id: string, now: int, slide: bool)
    requires Proper(es) && (es != [] ==> es[|es| - 1].at <= now)
    ensures var t, a := After(Customers, es), AccountAfter(Customers, es);
      Accepts(t, Customers, id, now, slide, Matched) <==>
        id in a && a[id].open && now <= a[id].slid + 3600 && now < a[id].created + 604800
    ensures var t, a := After(Operators, es), AccountAfter(Operators, es);
      Accepts(t, Operators, id, now, slide, Matched) <==> id in a && a[id].open && now <= a[id].slid + 28800
  {
    hide After, AccountAfter, Accepts;
    AcceptedExactlyWhenGood(Customers, es, id, now, slide);
    AcceptedExactlyWhenGood(Operators, es, id, now, slide);
  }

  /**
   What a sliding verify cleans up, in the two tables' own terms: a customer's row goes
   exactly when its time is over or it is seven days old, an operator's exactly when its
   time is over, so a revoked row stays until then. No other row goes, and a verify
   that does not slide changes nothing.
   */
  lemma CleanUpExactly(t: Table, id: string, now: int, other: string)
    requires id in t
    ensures id in Verified(t, Customers, id, now, true) <==> now <= t[id].expires && now < t[id].created + 604800
    ensures id in Verified(t, Operators, id, now, true) <==> now <= t[id].expires
    ensures forall side :: other in t && other != id ==>
      other in Verified(t, side, id, now, true) && Verified(t, side, id, now, true)[other] == t[other]
    ensures forall side :: Verified(t, side, id, now, false) == t
  {
  }

  /** What an accepted verify reports of its session: its owner and creation, and times counted from the last slide, which may be now. */
  lemma AcceptedReportsSession(side: Side, es: seq<Event>, id: string, now: int, slide: bool)
    requires Proper(es) && (es != [] ==> es[|es| - 1].at <= now)
    requires Accepts(After(side, es), side, id, now, slide, Matched)
    ensures id in AccountAfter(side, es) && id in Verified(After(side, es), side, id, now, slide)
    ensures var s := AccountAfter(side, es)[id];
      var since := if slide then now else s.slid;
      Verified(After(side, es), side, id, now, slide)[id] == Row(s.owner, s.created, since, since + Ttl(side), false)
  {
    var clock := if es == [] then now else es[|es| - 1].at;
    RunAgrees(side, es, id, clock);
    if side.Customers? {
      CustomersNeverRevoked(es, id);
    }
  }

  lemma {:induction false} CustomersNeverRevoked(es: seq<Event>, id: string)
    ensures id in After(Customers, es) ==> !After(Customers, es)[id].revoked
    decreases |es|
  {
    if es != [] {
      CustomersNeverRevoked(es[..|es| - 1], id);
    }
  }

  /** With changed-row counting a verify that does not slide always refuses, and so does a second slide in one second. */
  lemma ChangedCountRefuses(side: Side, t: Table, id: string, now: int)
    ensures !Accepts(t, side, id, now, false, Changed)
    ensures Accepts(t, side, id, now, true, Matched) ==>
      !Accepts(Verified(t, side, id, now, true), side, id, now, true, Changed)
  {
  }

  /** The account's last slide is the time of the session's creation or of an accepted sliding verify. */
  lemma {:induction false} SlidIsEvent(side: Side, es: seq<Event>, id: string)
    requires id in AccountAfter(side, es)
    ensures exists i ::
      && 0 <= i < |es|
      && AccountAfter(side, es)[id].slid == es[i].at
      && (es[i].Create? || (es[i].Verify? && es[i].slide)) && es[i].id == id
      && (es[i].Verify? ==> id in AccountAfter(side, es[..i]) && Good(side, AccountAfter(side, es[..i])[id], es[i].at))
    decreases |es|
  {
    var before, e := es[..|es| - 1], es[|es| - 1];
    if id in AccountAfter(side, before) && AccountAfter(side, es)[id].slid == AccountAfter(side, before)[id].slid {
      SlidIsEvent(side, before, id);
      var i :| 0 <= i < |before| && AccountAfter(side, before)[id].slid == before[i].at
        && (before[i].Create? || (before[i].Verify? && before[i].slide)) && before[i].id == id
        && (before[i].Verify? ==>
              id in AccountAfter(side, before[..i]) && Good(side, AccountAfter(side, before[..i])[id], before[i].at));
      assert es[i] == before[i] && es[..i] == before[..i];
    } else {
      assert es[|es| - 1].id == id;
    }
  }

  // ---------- Revocation ----------

  lemma {:induction false} ClosedStays(side: Side, es: seq<Event>, n: nat, id: string)
    requires Proper(es) && n <= |es|
    requires id in AccountAfter(side, es[..n]) && !AccountAfter(side, es[..n])[id].open
    ensures id in AccountAfter(side, es) && !AccountAfter(side, es)[id].open
    decreases |es|
  {
    if n == |es| {
      assert es[..n] == es;
    } else {
      var before, e := es[..|es| - 1], es[|es| - 1];
      ProperBefore(es);
      assert before[..n] == es[..n];
      ClosedStays(side, before, n, id);
      if e.Create? {
        OnlyCreated(side, before, e.id);
      }
    }
  }

  /** Once an operator's sessions are revoked, no session of theirs from before is ever accepted again. */
  lemma RevokedNeverAccepted(es: seq<Event>, n: nat, id: string, now: int, slide: bool, counting: Counting)
    requires Proper(es) && n < |es| && es[|es| - 1].at <= now && es[n].Revoke?
    requires id in AccountAfter(Operators, es[..n])
    requires es[n].owner == "" || es[n].owner == AccountAfter(Operators, es[..n])[id].owner
    ensures !Accepts(After(Operators, es), Operators, id, now, slide, counting)
  {
    assert es[..n + 1][..n] == es[..n];
    ClosedStays(Operators, es, n + 1, id);
    AcceptedExactlyWhenGood(Operators, es, id, now, slide);
  }
}
