/** The orphan sweep's LIKE pattern (host/vpn-portal/scripts/bulk_action.py): for which names it means what it should. */
module BulkSweep {
  import opened BulkDelete
  import opened BulkIntegrity

  predicate Plain(s: string) {
    forall i :: 0 <= i < |s| ==> s[i] != '%' && s[i] != '_' && s[i] != '\\'
  }

  lemma {:induction false} AnythingLike(text: string)
    ensures Like("%", text)
  {
    assert "%"[1..] == "";
    if text != [] {
      AnythingLike(text[1..]);
    }
  }

  /** A plain name's pattern finds exactly the names that start with it and a hyphen. */
  lemma {:induction false} PlainPattern(name: string, text: string)
    requires Plain(name)
    ensures Like(name + "-%", text) <==> name + "-" <= text
    decreases |name|
  {
    if name == [] {
      assert name + "-%" == "-%" && name + "-" == "-" && "-%"[1..] == "%";
      if text != [] {
        AnythingLike(text[1..]);
      }
    } else {
      assert (name + "-%")[1..] == name[1..] + "-%";
      if text != [] {
        PlainPattern(name[1..], text[1..]);
        assert name + "-" == [name[0]] + (name[1..] + "-");
        assert text == [text[0]] + text[1..];
        assert name + "-" <= text <==> name[0] == text[0] && name[1..] + "-" <= text[1..];
      }
    }
  }

  /** Deleting customers with plain names touches no RADIUS row outside their own names. */
  lemma OtherNamesUntouched(before: Db, ids: seq<int>, name: string)
    requires forall c :: c in Doomed(before, ids) ==>
      Plain(before.customers[c].name) && name != before.customers[c].name && !(before.customers[c].name + "-" <= name)
    ensures SameRows(After(before, ids).db.radius, before.radius, name)
  {
    hide After, OwnedOutside, AuditOutside, Purge, Like, NoRows, SameRows;
    DeleteIsCut(before, ids);
    var t := After(before, ids);
    forall n | n in t.swept ensures n != name {
      var c :| c in Doomed(before, ids) && c in before.customers && Matches(before.customers[c].name, n);
      PlainPattern(before.customers[c].name, n);
    }
    forall n | n in t.report.targets ensures n != name {
      var d :| d in before.devices && before.devices[d].customer in Doomed(before, ids)
        && n == Identity(before.customers[before.devices[d].customer].name, before.devices[d].name);
      assert before.customers[before.devices[d].customer].name + "-" <= n;
    }
    PurgedRows(before.radius, t.report.targets + t.swept, name);
  }

  // ---------- Names with wildcards ----------

  /** A short text that the pattern of `name` matches. */
  function Matched(name: string): (r: string)
    ensures |r| <= |name| + 1
  {
    if name == [] then "-"
    else if name[0] == '%' then Matched(name[1..])
    else if name[0] == '_' then "a" + Matched(name[1..])
    else if name[0] == '\\' then if |name| == 1 then "-" else [name[1]] + Matched(name[2..])
    else [name[0]] + Matched(name[1..])
  }

  /** A text that the pattern of `name` matches although it does not start with the name and a hyphen. */
  function Stranger(name: string): string
    requires !Plain(name)
  {
    if name[0] == '_' then "x" + Matched(name[1..])
    else if name[0] == '%' || name[0] == '\\' then Matched(name)
    else [name[0]] + Stranger(name[1..])
  }

  lemma LikeSteps(p: string, t: string)
    requires p != []
    ensures p[0] == '%' ==> Like(p, t) == (Like(p[1..], t) || (t != [] && Like(p, t[1..])))
    ensures p[0] == '_' ==> Like(p, t) == (t != [] && Like(p[1..], t[1..]))
    ensures p[0] == '\\' && |p| > 1 ==> Like(p, t) == (t != [] && t[0] == p[1] && Like(p[2..], t[1..]))
    ensures p[0] != '%' && p[0] != '_' && p[0] != '\\' ==> Like(p, t) == (t != [] && t[0] == p[0] && Like(p[1..], t[1..]))
  {
  }

  lemma {:induction false} MatchedIsLike(name: string)
    ensures Like(name + "-%", Matched(name))
    decreases |name|
  {
    hide Like;
    var p, t := name + "-%", Matched(name);
    LikeSteps(p, t);
    AnythingLike([]);
    if name == [] || name == "\\" {
      assert p == if name == [] then "-%" else "\\-%";
      assert t[1..] == [] && (if name == [] then p[1..] else p[2..]) == "%";
    } else if name[0] == '\\' {
      assert p[2..] == name[2..] + "-%" && p[1] == name[1] && t[1..] == Matched(name[2..]);
      MatchedIsLike(name[2..]);
    } else {
      assert p[1..] == name[1..] + "-%";
      assert name[0] != '%' ==> t[1..] == Matched(name[1..]);
      MatchedIsLike(name[1..]);
    }
  }

  lemma PrefixTail(x: string, t: string)
    requires x != [] && t != []
    ensures x <= t ==> x[1..] <= t[1..]
  {
    if x <= t {
      assert x == t[..|x|];
      assert x[1..] == t[1..][..|x| - 1];
    }
  }

  lemma {:induction false} StrangerIsLike(name: string)
    requires !Plain(name)
    ensures Like(name + "-%", Stranger(name)) && !(name + "-" <= Stranger(name))
    decreases |name|
  {
    hide Like;
    var p, t := name + "-%", Stranger(name);
    LikeSteps(p, t);
    assert p[1..] == name[1..] + "-%";
    if name[0] == '_' {
      MatchedIsLike(name[1..]);
      assert t[1..] == Matched(name[1..]) && t[0] != (name + "-")[0];
    } else if name[0] == '%' {
      MatchedIsLike(name);
      assert |t| < |name + "-"|;
    } else if name[0] == '\\' {
      MatchedIsLike(name);
      assert |t| < |name + "-"|;
    } else {
      assert t[1..] == Stranger(name[1..]);
      StrangerIsLike(name[1..]);
      PrefixTail(name + "-", t);
      assert (name + "-")[1..] == name[1..] + "-";
    }
  }

  /** The pattern matches just the names that start with the customer's and a
      hyphen if and only if the name holds no wildcard and no backslash. */
  lemma PatternIsPrefixExactly(name: string)
    ensures Plain(name) <==> forall text :: Like(name + "-%", text) <==> name + "-" <= text
  {
    hide Like;
    if Plain(name) {
      forall text ensures Like(name + "-%", text) <==> name + "-" <= text {
        PlainPattern(name, text);
      }
    } else {
      StrangerIsLike(name);
    }
  }

  /** Two customers, the second with a user and RADIUS rows but no device yet. */
  function TwoCustomers(first: string, second: string, userName: string, row: Row): Db {
    Db(map[1 := Customer(first, false), 2 := Customer(second, false)], map[], map[7 := userName],
       Radius([row], [row], [], [], []), [], [], [])
  }

  /** If the sweep for the first customer matches the user, deleting that customer
      removes the user and the RADIUS rows, whosever they are. */
  lemma MatchedUserIsDeleted(first: string, second: string, userName: string, row: Row)
    requires Matches(first, userName) && row.userName == userName
    ensures var before := TwoCustomers(first, second, userName, row);
      var after := After(before, [1]).db;
      && WellLinked(before) && 2 in after.customers && after.customers[2].name == second
      && after.users == map[] && after.radius == Radius([], [], [], [], [])
  {
    hide Like, DeleteIdentities, Sweep, DeleteScoped, Orphans, Identities, DevicesOf, Removed, NamesOf, WellLinked;
    var before := TwoCustomers(first, second, userName, row);
    assert [1][..0] == [];
    assert BulkDelete.After(before, [1]) == Turn(Tally(before, EMPTY, {}, Nothing()), before.customers, 1);
    NoDevices(before, 1, first);
    NothingNamed(before);
    SweepOfTwo(first, second, userName, row);
    ScopedOfTwo(before.(radius := Radius([], [], [], [], []), users := map[]), first, second);
    TwoWellLinked(before, userName);
  }

  /**
   An underscore, which customer names may hold, makes the delete of customer
   `a_c` remove the user and the RADIUS rows of customer `abc`.
   */
  lemma UnderscoreDeletesOthers()
    ensures var before := TwoCustomers("a_c", "abc", "abc-phone", Row("abc-phone", "x"));
      var after := After(before, [1]).db;
      && WellLinked(before) && 2 in after.customers && after.customers[2].name == "abc"
      && after.users == map[] && after.radius == Radius([], [], [], [], [])
  {
    hide Matches, TwoCustomers, After, WellLinked;
    UnderscoreMatchesOthers();
    MatchedUserIsDeleted("a_c", "abc", "abc-phone", Row("abc-phone", "x"));
  }

  /**
   So does a hyphen in the other customer's name, although both names are plain:
   deleting `a` removes the user and the RADIUS rows of customer `a-b`.
   */
  lemma HyphenDeletesOthers()
    ensures var before := TwoCustomers("a", "a-b", "a-b-phone", Row("a-b-phone", "x"));
      var after := After(before, [1]).db;
      && Plain("a") && Plain("a-b")
      && WellLinked(before) && 2 in after.customers && after.customers[2].name == "a-b"
      && after.users == map[] && after.radius == Radius([], [], [], [], [])
  {
    hide Like, TwoCustomers, After, WellLinked;
    PlainPattern("a", "a-b-phone");
    assert "a" + "-" == "a-" && "a-b-phone"[..2] == "a-";
    MatchedUserIsDeleted("a", "a-b", "a-b-phone", Row("a-b-phone", "x"));
  }

  lemma NoDevices(db: Db, c: int, name: string)
    requires db.devices == map[]
    ensures Identities(db, c, name) == {}
  {
    assert DevicesOf(db, c) == {};
  }

  lemma TwoWellLinked(db: Db, userName: string)
    requires db.devices == map[] && db.users == map[7 := userName]
    ensures WellLinked(db)
  {
  }

  lemma SweepOfTwo(first: string, second: string, userName: string, row: Row)
    requires Matches(first, userName) && row.userName == userName
    ensures var db := TwoCustomers(first, second, userName, row);
      Sweep(db, first) == db.(radius := Radius([], [], [], [], []), users := map[])
  {
    hide Like;
    var db := TwoCustomers(first, second, userName, row);
    assert 7 in Orphans(db, first);
    assert Orphans(db, first) == {7};
    assert NamesOf(db, {7}) == {userName};
    assert [row][1..] == [];
    assert Without([row], {userName}) == [];
    assert db.users - {7} == map[];
  }

  lemma ScopedOfTwo(db: Db, first: string, second: string)
    requires db.customers == map[1 := Customer(first, false), 2 := Customer(second, false)]
    ensures var after := DeleteScoped(db, 1);
      2 in after.customers && after.customers[2].name == second && after.users == db.users && after.radius == db.radius
  {
    assert 2 in db.customers - {1};
  }

  /** An underscore, which customer names may hold, makes the sweep of one customer match another's names. */
  lemma UnderscoreMatchesOthers()
    ensures Matches("a_c", "abc-phone") && !("a_c-" <= "abc-phone")
  {
    assert Like("%", "phone") by { AnythingLike("phone"); }
    assert "-%"[1..] == "%" && "-phone"[1..] == "phone";
    assert Like("-%", "-phone");
    assert "c-%"[1..] == "-%" && "c-phone"[1..] == "-phone";
    assert Like("c-%", "c-phone");
    assert "_c-%"[1..] == "c-%" && "bc-phone"[1..] == "c-phone";
    assert Like("_c-%", "bc-phone");
    assert "a_c-%"[1..] == "_c-%" && "abc-phone"[1..] == "bc-phone";
    assert "a_c" + "-%" == "a_c-%";
    assert "a_c-"[1] != "abc-phone"[1];
  }

  // ---------- A customer who is kept ----------

  /** The name is the customer's or that of an identity under it. */
  predicate Under(customer: string, name: string) {
    name == customer || customer + "-" <= name
  }

  /** A user under the customer's name that is no identity of a deleted device. */
  ghost predicate Own(db: Db, gone: set<int>, customer: string, u: int) {
    u in db.users && Under(customer, db.users[u]) && db.users[u] !in TargetsOf(db, gone)
  }

  /** The users under the customer's name stay, and so do the RADIUS rows under it,
      identities of deleted devices apart. */
  ghost predicate Spared(before: Db, gone: set<int>, after: Db, customer: string) {
    && (forall u :: Own(before, gone, customer, u) ==> u in after.users)
    && (forall n :: Under(customer, n) && n !in TargetsOf(before, gone) ==> SameRows(after.radius, before.radius, n))
  }

  /**
   In a well-linked database, whatever the names: the users and the RADIUS rows under
   a customer's name stay exactly when none of these users lacks a device and is
   looked for by the sweep of a deleted customer.
   */
  lemma CustomerIsSparedExactly(before: Db, ids: seq<int>, customer: string)
    requires WellLinked(before)
    ensures var gone := Doomed(before, ids);
      Spared(before, gone, After(before, ids).db, customer) <==>
        forall u :: Own(before, gone, customer, u) ==> !SweptUser(before, gone, u)
  {
    hide After, Doomed, TargetsOf, WellLinked, SameRows, NoRows, SweptUser, Under;
    var gone, after := Doomed(before, ids), After(before, ids).db;
    forall u | Own(before, gone, customer, u) ensures u in after.users <==> !SweptUser(before, gone, u) {
      UsersGoExactly(before, ids, u);
    }
    if forall u :: Own(before, gone, customer, u) ==> !SweptUser(before, gone, u) {
      forall n | Under(customer, n) && n !in TargetsOf(before, gone) ensures SameRows(after.radius, before.radius, n) {
        RowsGoExactly(before, ids, n);
        forall u | u in before.users && before.users[u] == n ensures !SweptUser(before, gone, u) {
          assert Own(before, gone, customer, u);
        }
      }
    }
  }
}
