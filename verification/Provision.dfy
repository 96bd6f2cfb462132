/**
 `create_client` (host/vpn-portal/app.py): the transaction over the tables, the
 edit of rw-eap.conf inside it, and the compensation for that edit.
 */
module Provision {
  import opened BulkDelete
  import opened BulkIntegrity
  import opened ConfText
  import ConfLayout
  import ConfStore
  import ConfExpiry
  import ConfFile
  import ConfRemoval
  import opened Options

  /** What the portal has gathered when the transaction begins; the ids are the next of each table. */
  datatype Request = Request(name: string, device: string, secret: string, ntlm: string, cid: int, uid: int, did: int)

  /** The tables and the text of rw-eap.conf. */
  datatype Site = Site(db: Db, conf: string)

  /** The statements of the transaction in their order. */
  datatype Statement =
    | InsertCustomer | SelectCustomer | InsertUser | SelectUser
    | InsertDevice | LinkCustomer | SelectDevice
    | WipeCheck | InsertCleartext | InsertNt | InsertGroup

  /** Where the work fails. A failing append may have replaced the file before it
      raised: the size check after the rename is still to come. */
  datatype Fault = Nowhere | AtDatabase(statement: Statement) | AtAppend(renamed: bool) | AtReload | AtCommit

  lemma EveryStatement(s: Statement)
    ensures s in {InsertCustomer, SelectCustomer, InsertUser, SelectUser, InsertDevice, LinkCustomer}
         || s in {SelectDevice, WipeCheck, InsertCleartext, InsertNt, InsertGroup}
  {
    match s { case _ => }
  }

  /** What the compensation reads: the file, nothing when the remote command fails
      and its error is swallowed, or an exception such as a timeout. */
  datatype Reading = Whole | Empty | Raises

  /** How the compensating read and write go. */
  datatype Cleanup = Cleanup(read: Reading, write: ConfFile.Write)

  function IdentityOf(r: Request): string {
    Identity(r.name, r.device)
  }

  predicate NameTaken(db: Db, name: string) {
    exists c :: c in db.customers && db.customers[c].name == name
  }

  predicate UserTaken(db: Db, name: string) {
    exists u :: u in db.users && db.users[u] == name
  }

  function CheckRows(r: Request): seq<Row> {
    [Row(IdentityOf(r), "Cleartext-Password := " + r.secret), Row(IdentityOf(r), "NT-Password := " + r.ntlm)]
  }

  /** The tables with the new rows; old radcheck rows of the identity are wiped first. */
  function Inserted(db: Db, r: Request): Db {
    var identity := IdentityOf(r);
    db.(customers := db.customers[r.cid := Customer(r.name, false)],
        users := db.users[r.uid := identity],
        devices := db.devices[r.did := Device(r.cid, r.uid, r.device)],
        radius := db.radius.(
          check := Without(db.radius.check, {identity}) + CheckRows(r),
          group := db.radius.group + [Row(identity, "default")]))
  }

  /** The file after the compensation: the expression is applied to what was read,
      and the result written. */
  function Compensated(conf: string, identity: string, cleanup: Cleanup): string {
    if cleanup.read.Raises? || cleanup.write.Refused? then conf
    else CompensateText(if cleanup.read.Whole? then conf else "", identity)
  }

  /** The site after `create_client`, and whether it succeeded. */
  function Created(s: Site, r: Request, fault: Fault, cleanup: Cleanup): (Site, bool) {
    if fault.AtDatabase? || NameTaken(s.db, r.name) || UserTaken(s.db, IdentityOf(r)) then (s, false)
    else
      var appended := AppendText(s.conf, IdentityOf(r), r.secret);
      if !appended.Appended? || fault == AtAppend(false) then (s, false)
      else if fault.AtAppend? then (s.(conf := appended.text), false)
      else if fault.Nowhere? then (Site(Inserted(s.db, r), appended.text), true)
      else (s.(conf := Compensated(appended.text, IdentityOf(r), cleanup)), false)
  }

  class Portal {
    var db: Db
    var conf: string

    ghost function Now(): Site
      reads this
    {
      Site(db, conf)
    }

    /** `append_eap_block` under the fault; HTTP errors and write errors are `false`. */
    method AppendBlock(identity: string, secret: string, fault: Fault) returns (ok: bool)
      modifies this`conf
      ensures var appended := AppendText(old(conf), identity, secret);
        && conf == (if appended.Appended? && fault != AtAppend(false) then appended.text else old(conf))
        && ok == (appended.Appended? && !fault.AtAppend?)
    {
      var appended := AppendText(conf, identity, secret);
      if !appended.Appended? || fault == AtAppend(false) {
        return false;
      }
      conf := appended.text;
      ok := !fault.AtAppend?;
    }

    /** The statements on the tables as the transaction sees them, up to the first that raises. */
    method Execute(r: Request, fault: Fault) returns (open: Db, ok: bool)
      ensures ok == !(fault.AtDatabase? || NameTaken(db, r.name) || UserTaken(db, IdentityOf(r)))
      ensures ok ==> open == Inserted(db, r)
    {
      hide Without;
      var identity := IdentityOf(r);
      if fault.AtDatabase? {
        EveryStatement(fault.statement);
      }
      open, ok := db, false;
      if fault == AtDatabase(InsertCustomer) || NameTaken(open, r.name) { return; }
      open := open.(customers := open.customers[r.cid := Customer(r.name, false)]);
      if fault == AtDatabase(SelectCustomer) { return; }
      if fault == AtDatabase(InsertUser) || UserTaken(open, identity) { return; }
      open := open.(users := open.users[r.uid := identity]);
      if fault == AtDatabase(SelectUser) || fault == AtDatabase(InsertDevice) { return; }
      open := open.(devices := open.devices[r.did := Device(r.cid, r.uid, r.device)]);
      if fault == AtDatabase(LinkCustomer) || fault == AtDatabase(SelectDevice) { return; }
      if fault == AtDatabase(WipeCheck) { return; }
      var check := Without(open.radius.check, {identity});
      open := open.(radius := open.radius.(check := check));
      if fault == AtDatabase(InsertCleartext) { return; }
      check := check + [Row(identity, "Cleartext-Password := " + r.secret)];
      open := open.(radius := open.radius.(check := check));
      if fault == AtDatabase(InsertNt) { return; }
      check := check + [Row(identity, "NT-Password := " + r.ntlm)];
      open := open.(radius := open.radius.(check := check));
      if fault == AtDatabase(InsertGroup) { return; }
      open := open.(radius := open.radius.(group := open.radius.group + [Row(identity, "default")]));
      assert check == Without(db.radius.check, {identity}) + CheckRows(r);
      ok := true;
    }

    /** The read, the substitution and the write of the compensation, whose own exceptions are logged. */
    method Compensate(identity: string, cleanup: Cleanup)
      modifies this`conf
      ensures conf == Compensated(old(conf), identity, cleanup)
    {
      hide CompensateText;
      var text := "";
      match cleanup.read {
        case Raises => return;
        case Whole => text := conf;
        case Empty =>
      }
      text := CompensateText(text, identity);
      if !cleanup.write.Refused? {
        conf := text;
      }
    }

    /** The transaction; an exception before its end leaves the tables as they were. */
    method Create(r: Request, fault: Fault, cleanup: Cleanup) returns (ok: bool)
      modifies this
      ensures (Now(), ok) == Created(old(Now()), r, fault, cleanup)
    {
      hide AppendText, Compensated, Inserted, NameTaken, UserTaken;
      var open, executed := Execute(r, fault);
      var blockWritten := false;
      if executed {
        blockWritten := AppendBlock(IdentityOf(r), r.secret, fault);
      }
      ok := blockWritten && !fault.AtReload? && !fault.AtCommit?;
      if ok {
        db := open;
      } else if blockWritten {
        Compensate(IdentityOf(r), cleanup);
      }
    }
  }

  // ---------- A failure ----------

  /** A step after the append fails. */
  predicate FailsLater(s: Site, r: Request, fault: Fault) {
    !NameTaken(s.db, r.name) && !UserTaken(s.db, IdentityOf(r)) && (fault.AtReload? || fault.AtCommit?)
  }

  /** The block stays behind: the file was replaced, and nothing takes the block out again. */
  predicate LeftBehind(s: Site, r: Request, fault: Fault, cleanup: Cleanup) {
    || (!NameTaken(s.db, r.name) && !UserTaken(s.db, IdentityOf(r)) && fault == AtAppend(true))
    || (FailsLater(s, r, fault) && (cleanup.read.Raises? || cleanup.write.Refused?))
  }

  /** The empty text of a failed read is written back over the file. */
  predicate Emptied(s: Site, r: Request, fault: Fault, cleanup: Cleanup) {
    FailsLater(s, r, fault) && cleanup.read.Empty? && !cleanup.write.Refused?
  }

  /** A well-formed file in which the identity can be looked up. */
  ghost predicate Fit(f: ConfLayout.File, r: Request) {
    && ConfLayout.ValidFile(f) && ConfExpiry.Complete(f)
    && ConfLayout.ValidId(IdentityOf(r)) && IsWord(r.secret)
    && ConfLayout.Silent(f.header, ConfLayout.For(IdentityOf(r), Opening))
  }

  lemma AppendOf(f: ConfLayout.File, r: Request) returns (g: ConfLayout.File)
    requires Fit(f, r)
    ensures var id := IdentityOf(r);
      var m := ConfLayout.Secrets(f.blocks);
      var appended := AppendText(ConfLayout.Render(f), id, r.secret);
      && (appended.Appended? <==> id !in m)
      && (appended.Appended? ==> appended.text == ConfLayout.Render(g) && g == ConfExpiry.WithBlock(f, id, r.secret))
      && ConfLayout.ValidFile(g) && g.header == f.header
      && (appended.Appended? ==> ConfLayout.Secrets(g.blocks) == m[id := r.secret])
  {
    hide ConfLayout.Render, ConfLayout.Secrets, ConfLayout.Silent, AppendText, ConfExpiry.WithBlock;
    g := ConfExpiry.AppendIsInsert(f, IdentityOf(r), r.secret);
  }

  lemma NothingToCompensate(id: string)
    ensures CompensateText("", id) == ""
  {
  }

  lemma NothingToLookUp(x: string)
    ensures LookupText("", x) == None
  {
  }

  /**
   A failed `create_client`, at any database statement, in the append, at the
   charon reload or at the commit: no table has changed. The file is empty if a
   failed read was written back; otherwise it means the same secrets as before,
   unless the new block was left behind, and then exactly one secret more. For an
   identity without a block that is left behind exactly when the replaced file's
   size check raised, or a later step failed and the compensating read or write
   raised too.
   */
  lemma FailureOutcome(f: ConfLayout.File, db: Db, r: Request, fault: Fault, cleanup: Cleanup)
    returns (g: ConfLayout.File)
    requires Fit(f, r) && !Created(Site(db, ConfLayout.Render(f)), r, fault, cleanup).1
    ensures var before, m := Site(db, ConfLayout.Render(f)), ConfLayout.Secrets(f.blocks);
      var (after, _) := Created(before, r, fault, cleanup);
      && after.db == db && ConfLayout.ValidFile(g) && g.header == f.header
      && after.conf == (if IdentityOf(r) !in m && Emptied(before, r, fault, cleanup) then "" else ConfLayout.Render(g))
      && ConfLayout.Secrets(g.blocks)
         == if IdentityOf(r) !in m && LeftBehind(before, r, fault, cleanup) then m[IdentityOf(r) := r.secret] else m
  {
    hide ConfLayout.Render, ConfLayout.Secrets, ConfLayout.Silent, AppendText, CompensateText, ConfExpiry.WithBlock;
    hide NameTaken, UserTaken;
    var id := IdentityOf(r);
    g := AppendOf(f, r);
    ConfStore.SecretsKeys(f.blocks, id);
    NothingToCompensate(id);
    var appended := AppendText(ConfLayout.Render(f), id, r.secret);
    if fault.AtDatabase? || NameTaken(db, r.name) || UserTaken(db, id) || !appended.Appended? || fault == AtAppend(false) {
      g := f;
    } else if !fault.AtAppend? && !cleanup.read.Raises? && !cleanup.write.Refused? {
      g := ConfExpiry.AppendThenCompensate(f, id, r.secret);
    }
  }

  /** The file holds a secret that can be looked up. */
  ghost predicate HoldsSecrets(f: ConfLayout.File) {
    exists x :: x in ConfLayout.Secrets(f.blocks) && ConfFile.Clear(f.header, x, Opening)
  }

  /** So every lookup answers as before exactly when no block was left behind and
      no empty read was written back over a file that holds secrets. */
  lemma LookupsUnchangedExactly(f: ConfLayout.File, db: Db, r: Request, fault: Fault, cleanup: Cleanup)
    requires Fit(f, r) && IdentityOf(r) !in ConfLayout.Secrets(f.blocks)
    requires !Created(Site(db, ConfLayout.Render(f)), r, fault, cleanup).1
    ensures var before := Site(db, ConfLayout.Render(f));
      var after := Created(before, r, fault, cleanup).0;
      (forall x :: ConfFile.Clear(f.header, x, Opening) ==> LookupText(after.conf, x) == LookupText(before.conf, x))
        <==> !LeftBehind(before, r, fault, cleanup) && !(Emptied(before, r, fault, cleanup) && HoldsSecrets(f))
  {
    hide ConfLayout.Render, ConfLayout.Secrets, ConfLayout.Silent, AppendText, CompensateText, LookupText, LeftBehind, Created;
    hide Emptied;
    var g := FailureOutcome(f, db, r, fault, cleanup);
    var id := IdentityOf(r);
    EmptiedIsNotLeft(Site(db, ConfLayout.Render(f)), r, fault, cleanup);
    forall x | ConfFile.Clear(f.header, x, Opening)
      ensures LookupText(ConfLayout.Render(f), x) == ConfStore.Get(ConfLayout.Secrets(f.blocks), x)
      ensures LookupText(ConfLayout.Render(g), x) == ConfStore.Get(ConfLayout.Secrets(g.blocks), x)
      ensures LookupText("", x) == None
    {
      ConfStore.LookupIsGet(f, x);
      ConfStore.LookupIsGet(g, x);
      NothingToLookUp(x);
    }
    assert ConfFile.Clear(f.header, id, Opening);
  }

  lemma EmptiedIsNotLeft(s: Site, r: Request, fault: Fault, cleanup: Cleanup)
    ensures !(Emptied(s, r, fault, cleanup) && LeftBehind(s, r, fault, cleanup))
  {
  }

  /** The remote commands of the reload and of the compensating read fail, the write
      goes through: every secret is lost, and the rest of the file with them. */
  lemma FailedReadEmptiesFile(f: ConfLayout.File, db: Db, r: Request)
    requires Fit(f, r) && IdentityOf(r) !in ConfLayout.Secrets(f.blocks)
    requires !NameTaken(db, r.name) && !UserTaken(db, IdentityOf(r))
    ensures var (after, ok) := Created(Site(db, ConfLayout.Render(f)), r, AtReload, Cleanup(Empty, ConfFile.Lands));
      !ok && after == Site(db, "") && forall x :: LookupText(after.conf, x) == None
  {
    hide ConfLayout.Render, ConfLayout.Secrets, ConfLayout.Silent, AppendText, CompensateText, LookupText;
    var g := FailureOutcome(f, db, r, AtReload, Cleanup(Empty, ConfFile.Lands));
    forall x ensures LookupText("", x) == None {
      NothingToLookUp(x);
    }
  }

  // ---------- A success ----------

  /** The ids are new to every table that mentions them. */
  ghost predicate NewIds(db: Db, r: Request) {
    && r.cid !in db.customers && r.uid !in db.users && r.did !in db.devices
    && (forall d :: d in db.devices ==> db.devices[d].customer != r.cid && db.devices[d].user != r.uid)
    && (forall i :: 0 <= i < |db.alerts| ==> db.alerts[i].customer != r.cid)
    && (forall i :: 0 <= i < |db.purchases| ==> db.purchases[i].customer != r.cid)
    && (forall i :: 0 <= i < |db.audit| ==> db.audit[i] != Audit("customer", r.cid))
  }

  /** A successful create keeps references sound. */
  lemma CreateKeepsLinks(s: Site, r: Request, cleanup: Cleanup)
    requires WellLinked(s.db) && NewIds(s.db, r) && Created(s, r, Nowhere, cleanup).1
    ensures WellLinked(Created(s, r, Nowhere, cleanup).0.db)
  {
    hide AppendText, Without, Identity;
    var after := Created(s, r, Nowhere, cleanup).0.db;
    assert after == Inserted(s.db, r);
  }

  lemma {:induction false} RowsJoin(a: seq<Row>, b: seq<Row>, name: string)
    ensures RowsOf(a + b, name) == RowsOf(a, name) + RowsOf(b, name)
  {
    hide RowsOf;
    if a == [] {
      assert a + b == b;
      NoRow(name);
    } else {
      RowsJoin(a[1..], b, name);
      FirstRow(a, name);
      FirstRow(a + b, name);
      assert (a + b)[1..] == a[1..] + b;
    }
  }

  lemma NoRow(name: string)
    ensures RowsOf([], name) == []
  {
  }

  lemma FirstRow(rows: seq<Row>, name: string)
    requires rows != []
    ensures RowsOf(rows, name) == (if rows[0].userName == name then [rows[0]] else []) + RowsOf(rows[1..], name)
  {
  }

  /**
   `create_client` succeeds exactly when nothing fails, no customer has the name, no user
   has the identity, which is the two names with a hyphen between them, and the file
   holds no block for it.
   */
  lemma SucceedsExactly(f: ConfLayout.File, db: Db, r: Request, fault: Fault, cleanup: Cleanup)
    requires Fit(f, r)
    ensures var id := r.name + "-" + r.device;
      Created(Site(db, ConfLayout.Render(f)), r, fault, cleanup).1 <==>
        && fault.Nowhere?
        && (forall c :: c in db.customers ==> db.customers[c].name != r.name)
        && (forall u :: u in db.users ==> db.users[u] != id)
        && id !in ConfLayout.Secrets(f.blocks)
  {
    hide ConfLayout.Render, ConfLayout.Secrets, ConfLayout.Silent, AppendText, Compensated;
    var g := AppendOf(f, r);
  }

  /** The two stores agree: the identity has exactly two radcheck rows, the first with the
      secret that lookup finds in the file as its cleartext password, the second with the
      hash; and the secret is the one that was asked for. */
  lemma StoresAgree(f: ConfLayout.File, db: Db, r: Request, cleanup: Cleanup)
    requires Fit(f, r) && Created(Site(db, ConfLayout.Render(f)), r, Nowhere, cleanup).1
    ensures var after, id := Created(Site(db, ConfLayout.Render(f)), r, Nowhere, cleanup).0, r.name + "-" + r.device;
      var found, rows := LookupText(after.conf, id), RowsOf(after.db.radius.check, id);
      && found == Some(r.secret) && |rows| == 2
      && rows[0].data == "Cleartext-Password := " + found.value
      && rows[1].data == "NT-Password := " + r.ntlm
  {
    hide ConfLayout.Render, ConfLayout.Secrets, ConfLayout.Silent, AppendText, CompensateText, LookupText, Without, RowsOf, CheckRows;
    var id := IdentityOf(r);
    var g := AppendOf(f, r);
    ConfStore.LookupIsGet(g, id);
    RowsOfWithout(db.radius.check, {id}, id);
    RowsJoin(Without(db.radius.check, {id}), CheckRows(r), id);
    TwoRows(r);
    assert [] + CheckRows(r) == CheckRows(r);
    SecretThenHash(r);
  }

  lemma SecretThenHash(r: Request)
    ensures var rows := CheckRows(r);
      |rows| == 2 && rows[0].data == "Cleartext-Password := " + r.secret && rows[1].data == "NT-Password := " + r.ntlm
  {
  }

  lemma TwoRows(r: Request)
    ensures RowsOf(CheckRows(r), IdentityOf(r)) == CheckRows(r)
  {
    hide Identity;
    var rows, id := CheckRows(r), IdentityOf(r);
    assert rows[1..] == [rows[1]] && [rows[1]][1..] == [];
    assert RowsOf([rows[1]], id) == [rows[1]] + RowsOf([], id);
    assert RowsOf(rows, id) == [rows[0]] + RowsOf(rows[1..], id);
  }

  lemma {:induction false} RowsOfOthers(rows: seq<Row>, name: string, other: string)
    requires forall i :: 0 <= i < |rows| ==> rows[i].userName == name
    requires other != name
    ensures RowsOf(rows, other) == []
  {
    if rows != [] {
      RowsOfOthers(rows[1..], name, other);
    }
  }

  /** The new device leads from the customer to a user of the identity, which
      gains its group; no row of any other name is touched. */
  lemma CreateAddsOnlyItsOwn(s: Site, r: Request, cleanup: Cleanup, other: string)
    requires NewIds(s.db, r) && Created(s, r, Nowhere, cleanup).1 && other != IdentityOf(r)
    ensures var after := Created(s, r, Nowhere, cleanup).0.db;
      && r.did in after.devices && after.devices[r.did].customer in after.customers
      && after.customers[after.devices[r.did].customer] == Customer(r.name, false)
      && after.devices[r.did].user in after.users
      && after.users[after.devices[r.did].user] == r.name + "-" + r.device
      && RowsOf(after.radius.group, IdentityOf(r)) == RowsOf(s.db.radius.group, IdentityOf(r)) + [Row(IdentityOf(r), "default")]
      && SameRows(after.radius, s.db.radius, other)
  {
    hide AppendText, Without, RowsOf;
    var id := IdentityOf(r);
    var group := [Row(id, "default")];
    RowsOfWithout(s.db.radius.check, {id}, other);
    RowsJoin(Without(s.db.radius.check, {id}), CheckRows(r), other);
    RowsOfOthers(CheckRows(r), id, other);
    RowsJoin(s.db.radius.group, group, other);
    RowsOfOthers(group, id, other);
    RowsJoin(s.db.radius.group, group, id);
    OneRow(id);
  }

  lemma OneRow(id: string)
    ensures RowsOf([Row(id, "default")], id) == [Row(id, "default")]
  {
    assert [Row(id, "default")][1..] == [];
  }

  // ---------- Create, then delete ----------

  lemma {:induction false} WithoutAbsent(rows: seq<Row>, names: set<string>)
    requires forall i :: 0 <= i < |rows| ==> rows[i].userName !in names
    ensures Without(rows, names) == rows
  {
    if rows != [] {
      WithoutAbsent(rows[1..], names);
    }
  }

  lemma {:induction false} WithoutAppended(rows: seq<Row>, more: seq<Row>, names: set<string>)
    requires forall i :: 0 <= i < |rows| ==> rows[i].userName !in names
    requires forall i :: 0 <= i < |more| ==> more[i].userName in names
    ensures Without(rows + more, names) == rows
  {
    if rows != [] {
      assert (rows + more)[1..] == rows[1..] + more;
      WithoutAppended(rows[1..], more, names);
    } else {
      assert rows + more == more;
      WithoutPresent(more, names);
    }
  }

  lemma {:induction false} WithoutPresent(rows: seq<Row>, names: set<string>)
    requires forall i :: 0 <= i < |rows| ==> rows[i].userName in names
    ensures Without(rows, names) == []
  {
    if rows != [] {
      WithoutPresent(rows[1..], names);
    }
  }

  /** No RADIUS table has rows of the name. */
  ghost predicate Absent(db: Db, name: string) {
    && (forall i :: 0 <= i < |db.radius.check| ==> db.radius.check[i].userName != name)
    && (forall i :: 0 <= i < |db.radius.group| ==> db.radius.group[i].userName != name)
    && (forall i :: 0 <= i < |db.radius.reply| ==> db.radius.reply[i].userName != name)
    && (forall i :: 0 <= i < |db.radius.postauth| ==> db.radius.postauth[i].userName != name)
    && (forall i :: 0 <= i < |db.radius.acct| ==> db.radius.acct[i].userName != name)
  }

  lemma PurgeOfInserted(db: Db, r: Request)
    requires Absent(db, IdentityOf(r))
    ensures Purge(Inserted(db, r).radius, {IdentityOf(r)}) == db.radius
  {
    hide Without, Identity;
    var names := {IdentityOf(r)};
    WithoutAbsent(db.radius.check, names);
    WithoutAppended(db.radius.check, CheckRows(r), names);
    WithoutAppended(db.radius.group, [Row(IdentityOf(r), "default")], names);
    WithoutAbsent(db.radius.reply, names);
    WithoutAbsent(db.radius.postauth, names);
    WithoutAbsent(db.radius.acct, names);
  }

  lemma {:induction false} OthersKeepAll(rows: seq<Owned>, cid: int)
    requires forall i :: 0 <= i < |rows| ==> rows[i].customer != cid
    ensures OwnedByOthers(rows, cid) == rows
  {
    if rows != [] {
      OthersKeepAll(rows[1..], cid);
    }
  }

  lemma {:induction false} AuditKeepsAll(rows: seq<Audit>, cid: int)
    requires forall i :: 0 <= i < |rows| ==> rows[i] != Audit("customer", cid)
    ensures AuditOfOthers(rows, cid) == rows
  {
    if rows != [] {
      AuditKeepsAll(rows[1..], cid);
    }
  }

  lemma IdentitiesOfNew(db: Db, r: Request)
    requires NewIds(db, r)
    ensures DevicesOf(Inserted(db, r), r.cid) == {r.did}
    ensures Identities(Inserted(db, r), r.cid, r.name) == {IdentityOf(r)}
  {
    hide Without, Identity;
    var after := Inserted(db, r);
    assert after.devices[r.did] == Device(r.cid, r.uid, r.device);
    assert after.devices.Keys == db.devices.Keys + {r.did};
    forall d | d in db.devices ensures after.devices[d].customer != r.cid {
    }
    assert r.did in DevicesOf(after, r.cid);
    assert DevicesOf(after, r.cid) == {r.did};
    assert Identities(after, r.cid, r.name) == {Identity(r.name, after.devices[r.did].name)};
  }

  lemma IdentitiesDeleted(db: Db, r: Request)
    requires NewIds(db, r) && !UserTaken(db, IdentityOf(r)) && Absent(db, IdentityOf(r))
    ensures var t := DeleteIdentities(Inserted(db, r), {IdentityOf(r)});
      t == Inserted(db, r).(radius := db.radius, users := db.users)
  {
    hide Without, Identity;
    PurgeOfInserted(db, r);
    forall u | u in db.users ensures db.users[u] != IdentityOf(r) {
    }
    assert DeleteIdentities(Inserted(db, r), {IdentityOf(r)}).users == db.users;
  }

  lemma NothingSwept(db: Db, r: Request)
    requires NewIds(db, r) && Orphans(db, r.name) == {}
    ensures Orphans(Inserted(db, r).(radius := db.radius, users := db.users), r.name) == {}
  {
    hide Without, Identity, Like;
    var t := Inserted(db, r).(radius := db.radius, users := db.users);
    forall u | u in t.users && Linked(db, u) ensures Linked(t, u) {
      var d :| d in db.devices && db.devices[d].user == u;
      assert d in t.devices && t.devices[d].user == u;
    }
    forall u | u in Orphans(t, r.name) ensures u in Orphans(db, r.name) {
    }
  }

  lemma ScopedDeleted(db: Db, r: Request)
    requires NewIds(db, r)
    ensures var t := Inserted(db, r).(radius := db.radius, users := db.users);
      DeleteScoped(t, r.cid) == db
  {
    hide Without, Identity, OwnedByOthers, AuditOfOthers;
    IdentitiesOfNew(db, r);
    OthersKeepAll(db.alerts, r.cid);
    OthersKeepAll(db.purchases, r.cid);
    AuditKeepsAll(db.audit, r.cid);
    var t := Inserted(db, r).(radius := db.radius, users := db.users);
    assert DevicesOf(t, r.cid) == DevicesOf(Inserted(db, r), r.cid);
    assert t.customers - {r.cid} == db.customers;
    assert t.devices - {r.did} == db.devices;
  }

  lemma DeletedAgain(db: Db, r: Request)
    requires NewIds(db, r) && !UserTaken(db, IdentityOf(r)) && Absent(db, IdentityOf(r)) && Orphans(db, r.name) == {}
    ensures var t := BulkDelete.After(Inserted(db, r), [r.cid]);
      t.db == db && t.report.targets == {IdentityOf(r)}
  {
    hide Without, Identity, Orphans, Purge, Removed, Plus, DeleteIdentities, DeleteScoped, Identities, DevicesOf, Inserted;
    var made := Inserted(db, r);
    var start := Tally(made, EMPTY, {}, Nothing());
    IdentitiesOfNew(db, r);
    IdentitiesDeleted(db, r);
    NothingSwept(db, r);
    NothingNamed(made.(radius := db.radius, users := db.users));
    ScopedDeleted(db, r);
    OneTurn(made, r.cid);
    NewCustomer(db, r);
    var none: set<string> := {};
    assert none + {IdentityOf(r)} == {IdentityOf(r)};
  }

  lemma OneTurn(db: Db, cid: int)
    ensures BulkDelete.After(db, [cid]) == Turn(Tally(db, EMPTY, {}, Nothing()), db.customers, cid)
  {
    hide Turn;
    assert [cid][..0] == [];
  }

  lemma NewCustomer(db: Db, r: Request)
    ensures r.cid in Inserted(db, r).customers && Inserted(db, r).customers[r.cid] == Customer(r.name, false)
  {
  }

  /**
   Deleting a customer just created undoes the create: every table is as it was,
   if nothing carried the new names before, and the file without the block of the
   reported identity means the same secrets.
   */
  lemma DeleteUndoesCreate(f: ConfLayout.File, db: Db, r: Request, cleanup: Cleanup)
    returns (g: ConfLayout.File)
    requires Fit(f, r) && ConfLayout.Silent(f.header, ConfLayout.For(IdentityOf(r), Space))
    requires NewIds(db, r) && Absent(db, IdentityOf(r)) && Orphans(db, r.name) == {}
    requires Created(Site(db, ConfLayout.Render(f)), r, Nowhere, cleanup).1
    ensures var made := Created(Site(db, ConfLayout.Render(f)), r, Nowhere, cleanup).0;
      var t := BulkDelete.After(made.db, [r.cid]);
      && t.db == db
      && t.report.targets == {IdentityOf(r)}
      && RemoveText(made.conf, IdentityOf(r)) == Some(ConfLayout.Render(g))
    ensures ConfLayout.ValidFile(g) && ConfLayout.Secrets(g.blocks) == ConfLayout.Secrets(f.blocks)
  {
    hide ConfLayout.Render, ConfLayout.Secrets, ConfLayout.Silent, AppendText, CompensateText, RemoveText, Identity,
      Inserted, NewIds, Absent, BulkDelete.After, Orphans;
    var id := IdentityOf(r);
    var h := AppendOf(f, r);
    ConfStore.SecretsKeys(f.blocks, id);
    g := ConfRemoval.RemoveIsDelete(h, id);
    assert ConfLayout.Secrets(f.blocks)[id := r.secret] - {id} == ConfLayout.Secrets(f.blocks);
    DeletedAgain(db, r);
  }
}
