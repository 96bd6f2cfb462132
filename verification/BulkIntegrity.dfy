/** What a bulk delete removes, what it keeps, and when references stay sound. */
module BulkIntegrity {
  import opened BulkDelete

  // ---------- The exact result ----------

  /** The customers of `ids` that a delete removes. */
  function Doomed(db: Db, ids: seq<int>): set<int> {
    set c | c in db.customers && c in ids && !db.customers[c].isOperator
  }

  function DevicesOutside(db: Db, gone: set<int>): map<int, Device> {
    map d | d in db.devices && db.devices[d].customer !in gone :: db.devices[d]
  }

  /** The identities of the devices of the customers in `gone`. */
  function TargetsOf(db: Db, gone: set<int>): set<string> {
    set d | d in db.devices && db.devices[d].customer in gone && db.devices[d].customer in db.customers
      :: Identity(db.customers[db.devices[d].customer].name, db.devices[d].name)
  }

  function OwnedOutside(rows: seq<Owned>, gone: set<int>): seq<Owned> {
    if rows == [] then []
    else (if rows[0].customer in gone then [] else [rows[0]]) + OwnedOutside(rows[1..], gone)
  }

  function AuditOutside(rows: seq<Audit>, gone: set<int>): seq<Audit> {
    if rows == [] then []
    else
      var first := if rows[0].targetType == "customer" && rows[0].targetId in gone then [] else [rows[0]];
      first + AuditOutside(rows[1..], gone)
  }

  /** A name the orphan sweep of a customer called `customer` looks for. */
  predicate Matches(customer: string, name: string) {
    name == customer || Like(customer + "-%", name)
  }

  /** The rows that refer to customers: those of the customers in `gone` are removed, no others. */
  ghost predicate ScopedCut(before: Db, gone: set<int>, after: Db) {
    && after.customers == before.customers - gone
    && after.devices == DevicesOutside(before, gone)
    && after.alerts == OwnedOutside(before.alerts, gone)
    && after.purchases == OwnedOutside(before.purchases, gone)
    && after.audit == AuditOutside(before.audit, gone)
  }

  /** The name is one that the sweep of some customer in `gone` looks for. */
  ghost predicate Sought(db: Db, gone: set<int>, name: string) {
    exists c :: c in gone && c in db.customers && Matches(db.customers[c].name, name)
  }

  /** The users: those with a target name go; of the others only users go that no
      remaining device has and that a sweep looks for; and of those a sweep looks
      for only ones that had a device can be left. */
  ghost predicate UsersCut(before: Db, gone: set<int>, after: Db, targets: set<string>) {
    && (forall u :: u in after.users ==> u in before.users && after.users[u] == before.users[u] && after.users[u] !in targets)
    && (forall u :: u in before.users && before.users[u] !in targets && u !in after.users ==>
          !Linked(after, u) && Sought(before, gone, before.users[u]))
    && (forall u, c | u in after.users && c in gone && c in before.customers ::
          Matches(before.customers[c].name, after.users[u]) ==> Linked(before, u))
  }

  /** The swept names are sought names of users that no remaining device has, and
      with the targets they cover every user that went. */
  ghost predicate SweptRight(before: Db, gone: set<int>, after: Db, targets: set<string>, swept: set<string>) {
    && (forall n :: n in swept ==>
          (exists u :: u in before.users && before.users[u] == n && !Linked(after, u)) && Sought(before, gone, n))
    && (forall u :: u in before.users && u !in after.users ==> before.users[u] in targets + swept)
  }

  ghost predicate Cut(before: Db, gone: set<int>, t: Tally) {
    && ScopedCut(before, gone, t.db)
    && t.report.targets == TargetsOf(before, gone)
    && UsersCut(before, gone, t.db, t.report.targets)
    && SweptRight(before, gone, t.db, t.report.targets, t.swept)
    && t.db.radius == Purge(before.radius, t.report.targets + t.swept)
    && Sizes(before.radius) == Plus(Sizes(t.db.radius), Plus(t.report.purged, t.sweptRows))
    && t.report.devicesDeleted == |before.devices| - |t.db.devices|
  }

  // ---------- One customer ----------

  lemma {:induction false} WithoutTwice(rows: seq<Row>, a: set<string>, b: set<string>)
    ensures Without(Without(rows, a), b) == Without(rows, a + b)
  {
    if rows != [] {
      WithoutTwice(rows[1..], a, b);
      var rest := Without(rows[1..], a);
      if rows[0].userName !in a {
        assert ([rows[0]] + rest)[1..] == rest;
      }
    }
  }

  lemma PurgeTwice(r: Radius, a: set<string>, b: set<string>)
    ensures Purge(Purge(r, a), b) == Purge(r, a + b)
  {
    WithoutTwice(r.check, a, b);
    WithoutTwice(r.group, a, b);
    WithoutTwice(r.reply, a, b);
    WithoutTwice(r.postauth, a, b);
    WithoutTwice(r.acct, a, b);
  }

  lemma RemovedAddsUp(r: Radius, names: set<string>)
    ensures Sizes(r) == Plus(Sizes(Purge(r, names)), Removed(r, names))
  {
  }

  lemma {:induction false} OwnedOneMore(rows: seq<Owned>, gone: set<int>, c: int)
    ensures OwnedByOthers(OwnedOutside(rows, gone), c) == OwnedOutside(rows, gone + {c})
  {
    if rows != [] {
      OwnedOneMore(rows[1..], gone, c);
      var rest := OwnedOutside(rows[1..], gone);
      if rows[0].customer !in gone {
        assert ([rows[0]] + rest)[1..] == rest;
      } else {
        assert [] + rest == rest;
      }
    }
  }

  lemma {:induction false} AuditOneMore(rows: seq<Audit>, gone: set<int>, c: int)
    ensures AuditOfOthers(AuditOutside(rows, gone), c) == AuditOutside(rows, gone + {c})
  {
    if rows != [] {
      AuditOneMore(rows[1..], gone, c);
      var rest := AuditOutside(rows[1..], gone);
      if rows[0].targetType == "customer" && rows[0].targetId in gone {
        assert [] + rest == rest;
      } else {
        assert ([rows[0]] + rest)[1..] == rest;
      }
    }
  }

  lemma ScopedStep(before: Db, gone: set<int>, t: Tally, c: int, name: string)
    requires ScopedCut(before, gone, t.db)
    ensures ScopedCut(before, gone + {c}, Deleted(t, c, name).db)
  {
    hide OwnedByOthers, OwnedOutside, AuditOfOthers, AuditOutside, Orphans, Purge, Identities;
    OwnedOneMore(before.alerts, gone, c);
    OwnedOneMore(before.purchases, gone, c);
    AuditOneMore(before.audit, gone, c);
    var after := Deleted(t, c, name).db;
    assert after.customers == before.customers - (gone + {c});
    assert after.devices == DevicesOutside(before, gone + {c});
  }

  /** At the turn of `c` its identities are those it had at first, if it is still there. */
  lemma IdentitiesStep(before: Db, gone: set<int>, db: Db, c: int)
    requires ScopedCut(before, gone, db) && c in before.customers
    ensures TargetsOf(before, gone) + Identities(db, c, before.customers[c].name) == TargetsOf(before, gone + {c})
  {
    hide OwnedOutside, AuditOutside, Identity;
    var name := before.customers[c].name;
    forall n | n in Identities(db, c, name) ensures n in TargetsOf(before, gone + {c}) {
      var d :| d in DevicesOf(db, c) && n == Identity(name, db.devices[d].name);
      assert d in before.devices && before.devices[d] == db.devices[d];
    }
    forall n | n in TargetsOf(before, gone + {c})
      ensures n in TargetsOf(before, gone) || n in Identities(db, c, name)
    {
      var d :| d in before.devices && before.devices[d].customer in gone + {c}
        && before.devices[d].customer in before.customers
        && n == Identity(before.customers[before.devices[d].customer].name, before.devices[d].name);
      if before.devices[d].customer !in gone {
        assert d in db.devices && d in DevicesOf(db, c);
      }
    }
  }

  lemma LinkedBefore(before: Db, gone: set<int>, after: Db, u: int)
    requires after.devices == DevicesOutside(before, gone) && Linked(after, u)
    ensures Linked(before, u)
  {
    var d :| d in after.devices && after.devices[d].user == u;
    assert d in before.devices && before.devices[d].user == u;
  }

  lemma LinkedStays(db: Db, after: Db, gone: set<int>, u: int)
    requires after.devices == db.devices - gone && Linked(after, u)
    ensures Linked(db, u)
  {
    var d :| d in after.devices && after.devices[d].user == u;
    assert d in db.devices && db.devices[d].user == u;
  }

  lemma SoughtGrows(db: Db, gone: set<int>, c: int, name: string)
    ensures Sought(db, gone, name) ==> Sought(db, gone + {c}, name)
    ensures c in db.customers && Matches(db.customers[c].name, name) ==> Sought(db, gone + {c}, name)
  {
    if Sought(db, gone, name) {
      var d :| d in gone && d in db.customers && Matches(db.customers[d].name, name);
      assert d in gone + {c};
    }
    assert c in gone + {c};
  }

  lemma UsersStep(before: Db, gone: set<int>, t: Tally, c: int)
    requires ScopedCut(before, gone, t.db) && UsersCut(before, gone, t.db, t.report.targets) && c in before.customers
    ensures var next := Deleted(t, c, before.customers[c].name);
      UsersCut(before, gone + {c}, next.db, next.report.targets)
  {
    hide OwnedByOthers, OwnedOutside, AuditOfOthers, AuditOutside, Purge, Identities, Like, Linked, Removed, NamesOf, Sought;
    var name := before.customers[c].name;
    var next := Deleted(t, c, name);
    var db1 := DeleteIdentities(t.db, Identities(t.db, c, name));
    forall u | Linked(next.db, u) ensures Linked(t.db, u) && Linked(db1, u) {
      LinkedStays(t.db, next.db, DevicesOf(t.db, c), u);
      LinkedStays(db1, next.db, DevicesOf(t.db, c), u);
    }
    forall u | Linked(db1, u) ensures Linked(before, u) {
      LinkedBefore(before, gone, db1, u);
    }
    forall u | u in before.users && before.users[u] !in next.report.targets && u !in next.db.users
      ensures !Linked(next.db, u) && Sought(before, gone + {c}, before.users[u])
    {
      SoughtGrows(before, gone, c, before.users[u]);
    }
  }

  lemma SweptStep(before: Db, gone: set<int>, t: Tally, c: int)
    requires ScopedCut(before, gone, t.db) && UsersCut(before, gone, t.db, t.report.targets)
    requires SweptRight(before, gone, t.db, t.report.targets, t.swept) && c in before.customers
    ensures var next := Deleted(t, c, before.customers[c].name);
      SweptRight(before, gone + {c}, next.db, next.report.targets, next.swept)
  {
    hide OwnedByOthers, OwnedOutside, AuditOfOthers, AuditOutside, Purge, Identities, Like, Linked, Removed;
    hide ScopedCut, UsersCut, Sought;
    var name := before.customers[c].name;
    var next := Deleted(t, c, name);
    var db1 := DeleteIdentities(t.db, Identities(t.db, c, name));
    assert next.db.devices == t.db.devices - DevicesOf(t.db, c) && db1.devices == t.db.devices;
    forall n | n in next.swept
      ensures exists u :: u in before.users && before.users[u] == n && !Linked(next.db, u)
      ensures Sought(before, gone + {c}, n)
    {
      SoughtGrows(before, gone, c, n);
      if n in t.swept {
        var u :| u in before.users && before.users[u] == n && !Linked(t.db, u);
        if Linked(next.db, u) {
          LinkedStays(t.db, next.db, DevicesOf(t.db, c), u);
        }
      } else {
        var u :| u in Orphans(db1, name) && db1.users[u] == n;
        UsersKeepNames(before, gone, t.db, t.report.targets, u);
        if Linked(next.db, u) {
          LinkedStays(db1, next.db, DevicesOf(t.db, c), u);
        }
      }
    }
    forall u | u in before.users && u !in next.db.users ensures before.users[u] in next.report.targets + next.swept {
      if u in t.db.users {
        UsersKeepNames(before, gone, t.db, t.report.targets, u);
      }
    }
  }

  lemma UsersKeepNames(before: Db, gone: set<int>, after: Db, targets: set<string>, u: int)
    requires UsersCut(before, gone, after, targets) && u in after.users
    ensures u in before.users && after.users[u] == before.users[u]
  {
  }

  lemma CountsStep(before: Db, t: Tally, c: int, name: string)
    requires Sizes(before.radius) == Plus(Sizes(t.db.radius), Plus(t.report.purged, t.sweptRows))
    ensures var next := Deleted(t, c, name);
      Sizes(before.radius) == Plus(Sizes(next.db.radius), Plus(next.report.purged, next.sweptRows))
  {
    hide OwnedByOthers, AuditOfOthers, Purge, Identities, Removed, Orphans, NamesOf, Sizes;
    var names := Identities(t.db, c, name);
    var db1 := DeleteIdentities(t.db, names);
    RemovedAddsUp(t.db.radius, names);
    RemovedAddsUp(db1.radius, NamesOf(db1, Orphans(db1, name)));
  }

  lemma DevicesStep(db: Db, c: int)
    ensures |db.devices - DevicesOf(db, c)| == |db.devices| - |DevicesOf(db, c)|
  {
    var own := DevicesOf(db, c);
    assert (db.devices - own).Keys == db.devices.Keys - own;
    assert own <= db.devices.Keys;
  }

  lemma RadiusStep(before: Db, t: Tally, c: int, name: string)
    requires t.db.radius == Purge(before.radius, t.report.targets + t.swept)
    ensures var next := Deleted(t, c, name); next.db.radius == Purge(before.radius, next.report.targets + next.swept)
  {
    hide OwnedByOthers, AuditOfOthers, Purge, Identities, Removed, Orphans, NamesOf;
    var names := Identities(t.db, c, name);
    var db1 := DeleteIdentities(t.db, names);
    var onames := NamesOf(db1, Orphans(db1, name));
    PurgeTwice(before.radius, t.report.targets + t.swept, names);
    PurgeTwice(before.radius, t.report.targets + t.swept + names, onames);
    assert t.report.targets + t.swept + names + onames == (t.report.targets + names) + (t.swept + onames);
  }

  lemma ScopedDevices(t: Tally, c: int, name: string)
    ensures Deleted(t, c, name).db.devices == t.db.devices - DevicesOf(t.db, c)
  {
  }

  lemma CutStep(before: Db, gone: set<int>, t: Tally, c: int)
    requires Cut(before, gone, t) && c in before.customers
    ensures Cut(before, gone + {c}, Deleted(t, c, before.customers[c].name))
  {
    hide ScopedCut, UsersCut, SweptRight, Sizes, Plus, DeleteIdentities, Sweep, DeleteScoped, TargetsOf, Purge, Identities;
    var name := before.customers[c].name;
    ScopedStep(before, gone, t, c, name);
    IdentitiesStep(before, gone, t.db, c);
    UsersStep(before, gone, t, c);
    SweptStep(before, gone, t, c);
    CountsStep(before, t, c, name);
    DevicesStep(t.db, c);
    assert Deleted(t, c, name).db.devices == t.db.devices - DevicesOf(t.db, c) by { ScopedDevices(t, c, name); }
    RadiusStep(before, t, c, name);
  }

  // ---------- Any list of ids ----------

  lemma TurnIsDeleted(before: Db, t: Tally, c: int)
    ensures c in before.customers && !before.customers[c].isOperator ==>
      Turn(t, before.customers, c) == Deleted(t, c, before.customers[c].name)
    ensures !(c in before.customers && !before.customers[c].isOperator) ==>
      Turn(t, before.customers, c) == t.(report := Turn(t, before.customers, c).report)
      && Turn(t, before.customers, c).report.(skipped := []) == t.report.(skipped := [])
  {
  }

  lemma NothingCut(before: Db)
    ensures Cut(before, {}, Tally(before, EMPTY, {}, Nothing()))
  {
    hide ScopedCut, UsersCut, SweptRight, TargetsOf, Sizes, Purge, Plus;
    NothingScoped(before);
    NoUsersCut(before);
    NothingPurged(before);
    PlusNone(Sizes(before.radius), Nothing());
  }

  lemma PlusNone(c: Counts, z: Counts)
    requires z == Nothing()
    ensures c == Plus(c, Plus(z, z))
  {
    hide Plus;
    PlusZero(z);
    PlusZero(c);
  }

  lemma PlusZero(c: Counts)
    ensures Plus(c, Nothing()) == c
  {
  }

  lemma NothingPurged(before: Db)
    ensures Purge(before.radius, {} + {}) == before.radius
  {
    hide Without;
    var none: set<string> := {};
    assert none + none == none;
    NothingNamed(before);
  }

  lemma NothingScoped(before: Db)
    ensures ScopedCut(before, {}, before) && TargetsOf(before, {}) == {}
  {
    hide OwnedOutside, AuditOutside;
    NothingOutside(before.alerts, before.purchases, before.audit);
    assert DevicesOutside(before, {}) == before.devices;
    assert before.customers - {} == before.customers;
  }

  lemma NoUsersCut(before: Db)
    ensures UsersCut(before, {}, before, {}) && SweptRight(before, {}, before, {}, {})
  {
  }

  lemma {:induction false} NothingOutside(a: seq<Owned>, p: seq<Owned>, l: seq<Audit>)
    ensures OwnedOutside(a, {}) == a && OwnedOutside(p, {}) == p && AuditOutside(l, {}) == l
    decreases |a| + |p| + |l|
  {
    if a != [] {
      NothingOutside(a[1..], p, l);
    } else if p != [] {
      NothingOutside(a, p[1..], l);
    } else if l != [] {
      NothingOutside(a, p, l[1..]);
    }
  }

  /**
   The exact result for every database and every list of ids, repeated, unknown
   and operator ids included: which rows of every table go, that a RADIUS row
   goes exactly when its name is a deleted identity or a swept one, and that the
   reported counts are the rows removed for deleted identities; the sweeps' rows
   are not in them.
   */
  lemma {:induction false} DeleteIsCut(before: Db, ids: seq<int>)
    ensures Cut(before, Doomed(before, ids), After(before, ids))
    decreases |ids|
  {
    hide Cut, Deleted, Turn, Doomed;
    if ids == [] {
      NothingCut(before);
      NobodyDoomed(before);
    } else {
      var rest, c := ids[..|ids| - 1], ids[|ids| - 1];
      assert ids == rest + [c];
      DeleteIsCut(before, rest);
      TurnIsDeleted(before, After(before, rest), c);
      OneMoreDoomed(before, rest, c);
      if c in before.customers && !before.customers[c].isOperator {
        CutStep(before, Doomed(before, rest), After(before, rest), c);
      } else {
        CutReport(before, Doomed(before, rest), After(before, rest), After(before, ids));
      }
    }
  }

  lemma NobodyDoomed(db: Db)
    ensures Doomed(db, []) == {}
  {
  }

  lemma OneMoreDoomed(db: Db, ids: seq<int>, c: int)
    ensures Doomed(db, ids + [c])
      == if c in db.customers && !db.customers[c].isOperator then Doomed(db, ids) + {c} else Doomed(db, ids)
  {
  }

  lemma CutReport(before: Db, gone: set<int>, t: Tally, u: Tally)
    requires Cut(before, gone, t) && u == t.(report := u.report)
    requires u.report.(skipped := []) == t.report.(skipped := [])
    ensures Cut(before, gone, u)
  {
    assert u.report.targets == t.report.targets;
    assert u.report.purged == t.report.purged;
    assert u.report.devicesDeleted == t.report.devicesDeleted;
  }

  // ---------- The report ----------

  lemma ReportTurn(t: Tally, byId: map<int, Customer>, c: int)
    ensures var before, after := t.report, Turn(t, byId, c).report;
      && (c !in byId ==> after.affected == before.affected && after.skipped == before.skipped + [(c, NotFound)])
      && (c in byId && byId[c].isOperator ==>
            after.affected == before.affected && after.skipped == before.skipped + [(c, IsOperator)])
      && (c in byId && !byId[c].isOperator ==>
            after.affected == before.affected + [c] && after.skipped == before.skipped)
  {
    hide Identities, Orphans, DeleteIdentities, Sweep, DeleteScoped, Removed, Plus, NamesOf;
  }

  /** Every id is reported as often as it was given: affected if it is a customer
      and no operator, else skipped with the right reason. */
  lemma {:induction false} EveryIdIsReported(before: Db, ids: seq<int>, c: int)
    ensures var r := After(before, ids).report;
      var times := multiset(ids)[c];
      && multiset(r.affected)[c] == (if c in before.customers && !before.customers[c].isOperator then times else 0)
      && multiset(r.skipped)[(c, IsOperator)] == (if c in before.customers && before.customers[c].isOperator then times else 0)
      && multiset(r.skipped)[(c, NotFound)] == (if c !in before.customers then times else 0)
      && |r.affected| + |r.skipped| == |ids|
    decreases |ids|
  {
    hide Turn;
    if ids != [] {
      var rest, last := ids[..|ids| - 1], ids[|ids| - 1];
      assert ids == rest + [last];
      EveryIdIsReported(before, rest, c);
      ReportTurn(After(before, rest), before.customers, last);
    }
  }

  // ---------- References ----------

  /** Whether the device's user is in the table. */
  predicate Dangling(db: Db, d: int)
    requires d in db.devices
  {
    db.devices[d].user !in db.users
  }

  /** A device that is kept loses its user exactly when the user carries the name of a deleted identity. */
  lemma DanglesExactly(before: Db, ids: seq<int>, d: int)
    requires d in After(before, ids).db.devices
    requires d in before.devices ==> !Dangling(before, d)
    ensures d in before.devices && before.devices[d].user in before.users
    ensures Dangling(After(before, ids).db, d)
      <==> before.users[before.devices[d].user] in TargetsOf(before, Doomed(before, ids))
  {
    hide After, OwnedOutside, AuditOutside, Purge, Like, TargetsOf;
    DeleteIsCut(before, ids);
    var after := After(before, ids).db;
    assert after.devices == DevicesOutside(before, Doomed(before, ids));
    assert Linked(after, after.devices[d].user);
  }

  /** Every device has its customer and a user named after both; user names and a device's user are unique. */
  ghost predicate WellLinked(db: Db) {
    && (forall d :: d in db.devices ==>
          && db.devices[d].customer in db.customers && db.devices[d].user in db.users
          && db.users[db.devices[d].user] == Identity(db.customers[db.devices[d].customer].name, db.devices[d].name))
    && (forall u, v :: u in db.users && v in db.users && db.users[u] == db.users[v] ==> u == v)
    && (forall d, e :: d in db.devices && e in db.devices && db.devices[d].user == db.devices[e].user ==> d == e)
  }

  /** In a well-linked database no kept device has a deleted identity. */
  lemma KeptIdentityIsNoTarget(before: Db, gone: set<int>, d: int)
    requires WellLinked(before) && d in before.devices && before.devices[d].customer !in gone
    ensures before.users[before.devices[d].user] !in TargetsOf(before, gone)
  {
    hide Identity;
    forall n | n in TargetsOf(before, gone) ensures n != before.users[before.devices[d].user] {
      var e :| e in before.devices && before.devices[e].customer in gone && before.devices[e].customer in before.customers
        && n == Identity(before.customers[before.devices[e].customer].name, before.devices[e].name);
      assert before.users[before.devices[e].user] == n;
      assert before.devices[e].user != before.devices[d].user;
    }
  }

  /** Deleting any list of customers leaves a well-linked database well linked. */
  lemma DeleteKeepsLinks(before: Db, ids: seq<int>)
    requires WellLinked(before)
    ensures WellLinked(After(before, ids).db)
  {
    hide After, OwnedOutside, AuditOutside, Purge, Like, TargetsOf, Identity;
    DeleteIsCut(before, ids);
    var gone, after := Doomed(before, ids), After(before, ids).db;
    forall d | d in after.devices
      ensures after.devices[d] == before.devices[d] && after.devices[d].user in after.users
    {
      KeptIdentityIsNoTarget(before, gone, d);
      assert Linked(after, after.devices[d].user);
    }
  }

  // ---------- RADIUS rows ----------

  /** The rows of one name, in order. */
  function RowsOf(rows: seq<Row>, name: string): seq<Row> {
    if rows == [] then []
    else (if rows[0].userName == name then [rows[0]] else []) + RowsOf(rows[1..], name)
  }

  lemma {:induction false} RowsOfWithout(rows: seq<Row>, names: set<string>, name: string)
    ensures RowsOf(Without(rows, names), name) == if name in names then [] else RowsOf(rows, name)
  {
    if rows != [] {
      RowsOfWithout(rows[1..], names, name);
      var rest := Without(rows[1..], names);
      if rows[0].userName !in names {
        assert ([rows[0]] + rest)[1..] == rest;
      }
    }
  }

  /** All five tables have the same rows of this name, or none has any. */
  ghost predicate SameRows(a: Radius, b: Radius, name: string) {
    && RowsOf(a.check, name) == RowsOf(b.check, name) && RowsOf(a.group, name) == RowsOf(b.group, name)
    && RowsOf(a.reply, name) == RowsOf(b.reply, name) && RowsOf(a.postauth, name) == RowsOf(b.postauth, name)
    && RowsOf(a.acct, name) == RowsOf(b.acct, name)
  }

  ghost predicate NoRows(r: Radius, name: string) {
    && RowsOf(r.check, name) == [] && RowsOf(r.group, name) == [] && RowsOf(r.reply, name) == []
    && RowsOf(r.postauth, name) == [] && RowsOf(r.acct, name) == []
  }

  lemma PurgedRows(r: Radius, names: set<string>, name: string)
    ensures name in names ==> NoRows(Purge(r, names), name)
    ensures name !in names ==> SameRows(Purge(r, names), r, name)
  {
    RowsOfWithout(r.check, names, name);
    RowsOfWithout(r.group, names, name);
    RowsOfWithout(r.reply, names, name);
    RowsOfWithout(r.postauth, names, name);
    RowsOfWithout(r.acct, names, name);
  }

  /** Of a deleted identity nothing is left: no row in any RADIUS table and no user. */
  lemma DeletedIdentityIsGone(before: Db, ids: seq<int>, name: string)
    requires name in TargetsOf(before, Doomed(before, ids))
    ensures var after := After(before, ids).db;
      NoRows(after.radius, name) && forall u :: u in after.users ==> after.users[u] != name
  {
    hide After, OwnedOutside, AuditOutside, Purge, Like, TargetsOf, NoRows, SameRows;
    DeleteIsCut(before, ids);
    var t := After(before, ids);
    PurgedRows(before.radius, t.report.targets + t.swept, name);
  }

  /** So of each device of a deleted customer: its identity is the two names with a hyphen between them. */
  lemma DeletedDeviceIsGone(before: Db, ids: seq<int>, d: int)
    requires d in before.devices && before.devices[d].customer in before.customers
    requires before.devices[d].customer in ids && !before.customers[before.devices[d].customer].isOperator
    ensures var after, name := After(before, ids).db,
          before.customers[before.devices[d].customer].name + "-" + before.devices[d].name;
      NoRows(after.radius, name) && d !in after.devices && forall u :: u in after.users ==> after.users[u] != name
  {
    hide After, OwnedOutside, AuditOutside, Purge, Like, NoRows, SameRows;
    var c := before.devices[d].customer;
    assert Identity(before.customers[c].name, before.devices[d].name) in TargetsOf(before, Doomed(before, ids));
    DeletedIdentityIsGone(before, ids, Identity(before.customers[c].name, before.devices[d].name));
    DeleteIsCut(before, ids);
  }

  /** In a well-linked database the rows and the user of a kept device's identity are untouched, sweeps included. */
  lemma KeptIdentityIsUntouched(before: Db, ids: seq<int>, d: int)
    requires WellLinked(before) && d in After(before, ids).db.devices
    ensures d in before.devices && before.devices[d].user in before.users
    ensures var u := before.devices[d].user;
      var after := After(before, ids).db;
      && u in after.users && after.users[u] == before.users[u]
      && SameRows(after.radius, before.radius, before.users[u])
  {
    hide After, OwnedOutside, AuditOutside, Purge, Like, TargetsOf, NoRows, SameRows, Identity;
    DeleteIsCut(before, ids);
    var t := After(before, ids);
    var u := before.devices[d].user;
    KeptIdentityIsNoTarget(before, Doomed(before, ids), d);
    assert Linked(t.db, u);
    var n := before.users[u];
    forall m | m in t.swept ensures m != n {
      var v :| v in before.users && before.users[v] == m && !Linked(t.db, v);
      assert u != v;
    }
    PurgedRows(before.radius, t.report.targets + t.swept, n);
  }

  /** In a well-linked database a delete leaves no user behind that a sweep of a deleted customer would look for. */
  lemma NoOrphanLeft(before: Db, ids: seq<int>, c: int)
    requires WellLinked(before) && c in Doomed(before, ids)
    ensures Orphans(After(before, ids).db, before.customers[c].name) == {}
  {
    hide After, OwnedOutside, AuditOutside, Purge, Like, Identity;
    DeleteIsCut(before, ids);
    var gone, after := Doomed(before, ids), After(before, ids).db;
    forall u | u in after.users && Matches(before.customers[c].name, after.users[u]) ensures Linked(after, u) {
      assert Linked(before, u);
      forall e | e in before.devices && before.devices[e].customer in gone
        ensures before.users[before.devices[e].user] in TargetsOf(before, gone) {
      }
      var d :| d in before.devices && before.devices[d].user == u;
      assert d in after.devices && after.devices[d].user == u;
    }
  }

  // ---------- Exact frames ----------

  /** A user that is no target and that no sweep looks for stays, in any database. */
  lemma UnsoughtUserStays(before: Db, ids: seq<int>, u: int)
    requires u in before.users && before.users[u] !in TargetsOf(before, Doomed(before, ids))
    requires !Sought(before, Doomed(before, ids), before.users[u])
    ensures var after := After(before, ids).db; u in after.users && after.users[u] == before.users[u]
  {
    hide After, OwnedOutside, AuditOutside, Purge, Sought, TargetsOf;
    DeleteIsCut(before, ids);
  }

  /** An orphan from the start that some sweep looks for. */
  ghost predicate SweptUser(before: Db, gone: set<int>, u: int)
    requires u in before.users
  {
    !Linked(before, u) && Sought(before, gone, before.users[u])
  }

  /** In a well-linked database a user that went without being a target was an orphan from the start. */
  lemma GoneUserWasOrphan(before: Db, gone: set<int>, after: Db, u: int)
    requires WellLinked(before) && after.devices == DevicesOutside(before, gone)
    requires u in before.users && before.users[u] !in TargetsOf(before, gone) && !Linked(after, u)
    ensures !Linked(before, u)
  {
    forall d | d in before.devices ensures before.devices[d].user != u {
      if before.devices[d].customer in gone {
        assert before.users[before.devices[d].user] in TargetsOf(before, gone);
      } else {
        assert d in after.devices && after.devices[d].user == before.devices[d].user;
        assert Linked(after, before.devices[d].user);
      }
    }
  }

  /** In a well-linked database exactly the targets and the swept orphans leave the users table. */
  lemma UsersGoExactly(before: Db, ids: seq<int>, u: int)
    requires WellLinked(before) && u in before.users
    ensures var gone := Doomed(before, ids);
      u in After(before, ids).db.users <==> before.users[u] !in TargetsOf(before, gone) && !SweptUser(before, gone, u)
  {
    hide After, OwnedOutside, AuditOutside, Purge, Like, TargetsOf, WellLinked, Matches;
    DeleteIsCut(before, ids);
    var gone, after := Doomed(before, ids), After(before, ids).db;
    if before.users[u] !in TargetsOf(before, gone) && u !in after.users {
      GoneUserWasOrphan(before, gone, after, u);
    }
  }

  /**
   In a well-linked database the RADIUS rows of a name go, from all five tables,
   exactly when the name is a deleted identity or that of an orphan some sweep
   looks for; otherwise they are untouched.
   */
  lemma RowsGoExactly(before: Db, ids: seq<int>, n: string)
    requires WellLinked(before)
    ensures var gone := Doomed(before, ids);
      var after := After(before, ids).db;
      if n in TargetsOf(before, gone) || exists u :: u in before.users && before.users[u] == n && SweptUser(before, gone, u)
      then NoRows(after.radius, n) else SameRows(after.radius, before.radius, n)
  {
    hide After, OwnedOutside, AuditOutside, Purge, Like, TargetsOf, NoRows, SameRows, WellLinked, Matches, Sought;
    DeleteIsCut(before, ids);
    var t, gone := After(before, ids), Doomed(before, ids);
    PurgedRows(before.radius, t.report.targets + t.swept, n);
    if n !in TargetsOf(before, gone) {
      if n in t.swept {
        var u :| u in before.users && before.users[u] == n && !Linked(t.db, u);
        GoneUserWasOrphan(before, gone, t.db, u);
        assert SweptUser(before, gone, u);
      } else {
        forall u | u in before.users && before.users[u] == n ensures !SweptUser(before, gone, u) {
          UsersGoExactly(before, ids, u);
        }
      }
    }
  }
}
