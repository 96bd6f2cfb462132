/** The transactional bulk delete of customers (host/vpn-portal/scripts/bulk_action.py). */
module BulkDelete {

  // ---------- Tables ----------

  datatype Customer = Customer(name: string, isOperator: bool)
  datatype Device = Device(customer: int, user: int, name: string)
  datatype Row = Row(userName: string, data: string)
  datatype Owned = Owned(customer: int, data: string)
  datatype Audit = Audit(targetType: string, targetId: int)

  /** The five RADIUS tables, all keyed by user name. */
  datatype Radius = Radius(check: seq<Row>, group: seq<Row>, reply: seq<Row>, postauth: seq<Row>, acct: seq<Row>)

  /** Tables with a primary key are maps from it; `users` gives each user's name. */
  datatype Db = Db(
    customers: map<int, Customer>,
    devices: map<int, Device>,
    users: map<int, string>,
    radius: Radius,
    alerts: seq<Owned>,
    purchases: seq<Owned>,
    audit: seq<Audit>)

  /** Rows removed per RADIUS table. */
  datatype Counts = Counts(check: nat, group: nat, reply: nat, postauth: nat, acct: nat)

  function Nothing(): Counts {
    Counts(0, 0, 0, 0, 0)
  }

  function Plus(a: Counts, b: Counts): Counts {
    Counts(a.check + b.check, a.group + b.group, a.reply + b.reply, a.postauth + b.postauth, a.acct + b.acct)
  }

  // ---------- SQL ----------

  /** MariaDB's LIKE, under a collation that tells all characters apart. */
  predicate Like(pattern: string, text: string)
    decreases |pattern| + |text|
  {
    if pattern == [] then text == []
    else if pattern[0] == '%' then Like(pattern[1..], text) || (text != [] && Like(pattern, text[1..]))
    else if pattern[0] == '_' then text != [] && Like(pattern[1..], text[1..])
    else if pattern[0] == '\\' && |pattern| > 1 then
      text != [] && text[0] == pattern[1] && Like(pattern[2..], text[1..])
    else text != [] && text[0] == pattern[0] && Like(pattern[1..], text[1..])
  }

  /** `DELETE ... WHERE UserName IN names`. */
  function Without(rows: seq<Row>, names: set<string>): seq<Row> {
    if rows == [] then []
    else
      var rest := Without(rows[1..], names);
      if rows[0].userName in names then rest else [rows[0]] + rest
  }

  function Purge(r: Radius, names: set<string>): Radius {
    Radius(Without(r.check, names), Without(r.group, names), Without(r.reply, names),
           Without(r.postauth, names), Without(r.acct, names))
  }

  function Sizes(r: Radius): Counts {
    Counts(|r.check|, |r.group|, |r.reply|, |r.postauth|, |r.acct|)
  }

  lemma {:induction false} WithoutShrinks(rows: seq<Row>, names: set<string>)
    ensures |Without(rows, names)| <= |rows|
  {
    if rows != [] {
      WithoutShrinks(rows[1..], names);
    }
  }

  /** The rows a purge removes, as the cursor's row counts report them. */
  function Removed(r: Radius, names: set<string>): Counts {
    WithoutShrinks(r.check, names); WithoutShrinks(r.group, names); WithoutShrinks(r.reply, names);
    WithoutShrinks(r.postauth, names); WithoutShrinks(r.acct, names);
    Counts(|r.check| - |Without(r.check, names)|, |r.group| - |Without(r.group, names)|,
           |r.reply| - |Without(r.reply, names)|, |r.postauth| - |Without(r.postauth, names)|,
           |r.acct| - |Without(r.acct, names)|)
  }

  function OwnedByOthers(rows: seq<Owned>, customer: int): seq<Owned> {
    if rows == [] then []
    else (if rows[0].customer == customer then [] else [rows[0]]) + OwnedByOthers(rows[1..], customer)
  }

  function AuditOfOthers(rows: seq<Audit>, customer: int): seq<Audit> {
    if rows == [] then []
    else (if rows[0] == Audit("customer", customer) then [] else [rows[0]]) + AuditOfOthers(rows[1..], customer)
  }

  // ---------- One customer ----------

  function Identity(customer: string, device: string): string {
    customer + "-" + device
  }

  function DevicesOf(db: Db, cid: int): set<int> {
    set d | d in db.devices && db.devices[d].customer == cid
  }

  /** The identities of a customer's devices. */
  function Identities(db: Db, cid: int, name: string): set<string> {
    set d | d in DevicesOf(db, cid) :: Identity(name, db.devices[d].name)
  }

  predicate Linked(db: Db, user: int) {
    exists d :: d in db.devices && db.devices[d].user == user
  }

  /** Users of no device with the customer's name or a name like its identities. */
  function Orphans(db: Db, name: string): set<int> {
    set u | u in db.users && !Linked(db, u) && (db.users[u] == name || Like(name + "-%", db.users[u]))
  }

  function NamesOf(db: Db, users: set<int>): set<string> {
    set u | u in users && u in db.users :: db.users[u]
  }

  /** RADIUS rows and users of the given identities. */
  function DeleteIdentities(db: Db, names: set<string>): Db {
    db.(radius := Purge(db.radius, names), users := map u | u in db.users && db.users[u] !in names :: db.users[u])
  }

  /** The orphan sweep. */
  function Sweep(db: Db, name: string): Db {
    var orphans := Orphans(db, name);
    db.(radius := Purge(db.radius, NamesOf(db, orphans)), users := db.users - orphans)
  }

  /** Everything that refers to the customer by id, and the customer. */
  function DeleteScoped(db: Db, cid: int): Db {
    db.(customers := db.customers - {cid}, devices := db.devices - DevicesOf(db, cid),
        alerts := OwnedByOthers(db.alerts, cid), purchases := OwnedByOthers(db.purchases, cid),
        audit := AuditOfOthers(db.audit, cid))
  }

  // ---------- The loop ----------

  datatype Reason = NotFound | IsOperator

  /** The script's `res` dict. */
  datatype Report = Report(
    affected: seq<int>,
    skipped: seq<(int, Reason)>,
    devicesDeleted: nat,
    targets: set<string>,
    purged: Counts)

  const EMPTY: Report := Report([], [], 0, {}, Nothing())

  /** The database and the report, with the names the sweeps purged and their row counts, which are not reported. */
  datatype Tally = Tally(db: Db, report: Report, swept: set<string>, sweptRows: Counts)

  /** One customer of `ids`, as found when the transaction began. */
  function Deleted(t: Tally, cid: int, name: string): Tally {
    var names := Identities(t.db, cid, name);
    var db1 := DeleteIdentities(t.db, names);
    var onames := NamesOf(db1, Orphans(db1, name));
    var db2 := Sweep(db1, name);
    Tally(DeleteScoped(db2, cid),
          t.report.(affected := t.report.affected + [cid],
                    devicesDeleted := t.report.devicesDeleted + |DevicesOf(t.db, cid)|,
                    targets := t.report.targets + names,
                    purged := Plus(t.report.purged, Removed(t.db.radius, names))),
          t.swept + onames,
          Plus(t.sweptRows, Removed(db1.radius, onames)))
  }

  /** One turn of the loop; `byId` was read before it. */
  function Turn(t: Tally, byId: map<int, Customer>, cid: int): Tally {
    if cid !in byId then t.(report := t.report.(skipped := t.report.skipped + [(cid, NotFound)]))
    else if byId[cid].isOperator then t.(report := t.report.(skipped := t.report.skipped + [(cid, IsOperator)]))
    else Deleted(t, cid, byId[cid].name)
  }

  function After(db: Db, ids: seq<int>): Tally {
    if ids == [] then Tally(db, EMPTY, {}, Nothing())
    else Turn(After(db, ids[..|ids| - 1]), db.customers, ids[|ids| - 1])
  }

  /** The statements for one customer; those over an empty name list are skipped. */
  method DeleteCustomer(db: Db, res: Report, cid: int, name: string, ghost t: Tally) returns (open: Db, report: Report)
    requires t.db == db && t.report == res
    ensures open == Deleted(t, cid, name).db && report == Deleted(t, cid, name).report
  {
    hide Identities, Orphans, Purge, Removed, NamesOf, DevicesOf, DeleteScoped;
    open, report := db, res;
    var devs := DevicesOf(db, cid);
    var names := Identities(db, cid, name);
    NothingNamed(open);
    report := report.(targets := report.targets + names);
    if names != {} {
      report := report.(purged := Plus(report.purged, Removed(open.radius, names)));
      open := DeleteIdentities(open, names);
    }
    assert open == DeleteIdentities(db, names);
    var orphans := Orphans(open, name);
    NothingNamed(open);
    if orphans != {} {
      open := open.(radius := Purge(open.radius, NamesOf(open, orphans)), users := open.users - orphans);
    }
    assert open == Sweep(DeleteIdentities(db, names), name);
    open := DeleteScoped(open, cid);
    report := report.(devicesDeleted := report.devicesDeleted + |devs|, affected := report.affected + [cid]);
  }

  class Database {
    var committed: Db

    /** The `delete` action. An exception at any point of id number `failsAt`, or at the
        commit when `failsAt` is the number of ids, rolls everything back. */
    method Delete(ids: seq<int>, failsAt: nat) returns (report: seq<Report>)
      modifies this
      ensures failsAt <= |ids| ==> report == [] && committed == old(committed)
      ensures failsAt > |ids| ==> report == [After(old(committed), ids).report] && committed == After(old(committed), ids).db
    {
      hide Deleted;
      var open, res := committed, EMPTY;
      var byId := map cid | cid in open.customers && cid in ids :: open.customers[cid];
      for k := 0 to |ids|
        invariant k <= failsAt
        invariant committed == old(committed)
        invariant open == After(committed, ids[..k]).db && res == After(committed, ids[..k]).report
      {
        if k == failsAt {
          return [];
        }
        assert ids[..k + 1][..k] == ids[..k];
        assert ids[k] in ids;
        var cid := ids[k];
        if cid !in byId {
          res := res.(skipped := res.skipped + [(cid, NotFound)]);
          continue;
        }
        if byId[cid].isOperator {
          res := res.(skipped := res.skipped + [(cid, IsOperator)]);
          continue;
        }
        open, res := DeleteCustomer(open, res, cid, byId[cid].name, After(committed, ids[..k]));
      }
      assert ids[..|ids|] == ids;
      if failsAt == |ids| {
        return [];
      }
      committed := open;
      return [res];
    }
  }

  lemma {:induction false} WithoutNone(rows: seq<Row>)
    ensures Without(rows, {}) == rows
  {
    if rows != [] {
      WithoutNone(rows[1..]);
    }
  }

  lemma NothingNamed(db: Db)
    ensures DeleteIdentities(db, {}) == db && Purge(db.radius, {}) == db.radius
    ensures Removed(db.radius, {}) == Nothing() && forall c :: Plus(c, Nothing()) == c
    ensures db.users - {} == db.users && NamesOf(db, {}) == {}
  {
    WithoutNone(db.radius.check);
    WithoutNone(db.radius.group);
    WithoutNone(db.radius.reply);
    WithoutNone(db.radius.postauth);
    WithoutNone(db.radius.acct);
    assert DeleteIdentities(db, {}).users == db.users;
  }
}
