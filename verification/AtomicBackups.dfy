/** What a call's backup holds on runs that mix local calls and calls over SSH. */
module AtomicBackups {
  import opened Options
  import opened AtomicWriter
  import opened AtomicRuns

  /** The backup is made and the call has not failed since. */
  predicate Backed(w: Writer) {
    w.phase.Saved? || w.phase.Writing? || w.phase.Written? || w.phase.Checked? || Landed(w)
  }

  /** Its rename has landed and was reported. */
  predicate Landed(w: Writer) {
    w.phase.Swapped? || w.phase == Leaving(true)
  }

  ghost predicate BakIs(m: Machine, i: nat, bytes: Bytes) {
    && Sound(m.disk) && i < |m.writers|
    && Bak(m.writers[i].tag) in m.disk.names && Content(m.disk, Bak(m.writers[i].tag)) == bytes
  }

  // ---------- One step ----------

  lemma BackupSaves(m: Machine, i: nat, count: nat)
    requires i < |m.writers| && Sound(m.disk) && Live in m.disk.names
    ensures var n := BackingUp(m, i, count, false);
      && n.writers[i].stored <= |Content(m.disk, Live)|
      && BakIs(n, i, Content(m.disk, Live)[..n.writers[i].stored])
  {
    hide Replaced, Sound;
    var live := Content(m.disk, Live);
    ReplacingFrames(m.disk, Bak(m.writers[i].tag), live[..Min(count, |live|)]);
  }

  /** The backup of a call comes from its backup step. */
  lemma BackedByStep(m: Machine, i: nat, a: Action)
    requires i < |m.writers| && Sound(m.disk) && Live in m.disk.names
    ensures var n := Act(m, i, a);
      var v, w := m.writers[i], n.writers[i];
      && (Backed(w) && !Backed(v) ==>
            && v.phase.Entered? && a.Backup? && Sound(n.disk) && w.stored <= |Content(m.disk, Live)|
            && BakIs(n, i, Content(m.disk, Live)[..w.stored]))
      && (Backed(w) && Backed(v) ==> w.stored == v.stored)
  {
    hide Sound, Opened, Replaced, Stored, Renamed, Unlinked, BakIs;
    ActSound(m, i, a);
    if a.Backup? {
      BackupSaves(m, i, a.count);
    }
  }

  /** What it says it replaced comes from its rename. */
  lemma LandedByStep(m: Machine, i: nat, a: Action)
    requires i < |m.writers| && Sound(m.disk) && Live in m.disk.names
    ensures var n := Act(m, i, a);
      var v, w := m.writers[i], n.writers[i];
      && (Landed(w) && !Landed(v) ==> v.phase.Checked? && a == Rename(Lands) && w.replaced == Content(m.disk, Live))
      && (Landed(w) && Landed(v) ==> w.replaced == v.replaced)
  {
    hide Sound, Opened, Replaced, Stored, Renamed, Unlinked;
  }

  /** A disk on which the call's backup is the same file. */
  ghost predicate SameBak(m: Machine, n: Machine, i: nat) {
    i < |m.writers| && Sound(n.disk) && Same(m.disk, n.disk, Bak(m.writers[i].tag))
  }

  lemma BakStays(m: Machine, n: Machine, i: nat, bytes: Bytes)
    requires BakIs(m, i, bytes) && SameBak(m, n, i) && OnlyMoves(m, n, i)
    ensures BakIs(n, i, bytes)
  {
    assert SameCall(m.writers[i], n.writers[i]);
  }

  lemma OpenKeepsBak(m: Machine, i: nat, fault: bool)
    requires i < |m.writers| && Sound(m.disk) && Bak(m.writers[i].tag) in m.disk.names
    ensures SameBak(m, Opening(m, i, fault), i)
  {
    hide Opened, Same, Sound;
    var d, p := m.disk, Tmp(m.writers[i].tag);
    OpeningFrames(d, p);
    assert Same(d, Opened(d, p), Bak(m.writers[i].tag));
    SameAsItself(d, Bak(m.writers[i].tag));
  }

  lemma SameAsItself(d: Disk, p: Path)
    requires Sound(d) && p in d.names
    ensures Same(d, d, p)
  {
  }

  lemma StoreKeepsBak(m: Machine, i: nat, count: nat)
    requires i < |m.writers| && Sound(m.disk) && m.writers[i].phase.Writing? && TempRight(m.disk, m.writers[i])
    ensures SameBak(m, Storing(m, i, count), i)
  {
    hide Stored, Same, Sound;
    var w, d := m.writers[i], m.disk;
    var chunk := w.content[w.phase.offset..w.phase.offset + Min(count, |w.content| - w.phase.offset)];
    StoringFrames(d, Tmp(w.tag), w.phase.offset, chunk);
    SoundAt(d, Tmp(w.tag));
    assert Same(d, Stored(d, d.names[Tmp(w.tag)], w.phase.offset, chunk), Bak(w.tag));
  }

  lemma RenameKeepsBak(m: Machine, i: nat, landing: Landing)
    requires i < |m.writers| && Sound(m.disk) && m.writers[i].phase.Checked? && TempRight(m.disk, m.writers[i])
    requires Bak(m.writers[i].tag) in m.disk.names
    ensures SameBak(m, Renaming(m, i, landing), i)
  {
    hide Renamed, Same, Sound;
    var w, d := m.writers[i], m.disk;
    RenamingFrames(d, Tmp(w.tag), Live);
    assert Same(d, Renamed(d, Tmp(w.tag), Live), Bak(w.tag));
    SameAsItself(d, Bak(w.tag));
  }

  lemma OwnStepKeepsBak(m: Machine, i: nat, a: Action, bytes: Bytes)
    requires i < |m.writers| && Sound(m.disk) && TempRight(m.disk, m.writers[i]) && BakIs(m, i, bytes)
    requires Backed(m.writers[i]) && Backed(Act(m, i, a).writers[i])
    ensures BakIs(Act(m, i, a), i, bytes)
  {
    hide BackingUp, Opening, Storing, Renaming, Sound, Same, Unlinked, OnlyMoves;
    var w := m.writers[i];
    ActMoves(m, i, a);
    SameAsItself(m.disk, Bak(w.tag));
    match (w.phase, a) {
      case (Saved, Open(fault)) => OpenKeepsBak(m, i, fault);
      case (Writing(_, _), Store(count)) => StoreKeepsBak(m, i, count);
      case (Checked, Rename(landing)) => RenameKeepsBak(m, i, landing);
      case _ =>
    }
    BakStays(m, Act(m, i, a), i, bytes);
  }

  lemma OtherStepKeepsBak(m: Machine, i: nat, j: nat, a: Action, bytes: Bytes, initial: Bytes)
    requires Kept(m, initial) && i < |m.writers| && j < |m.writers| && i != j && BakIs(m, i, bytes)
    requires Backed(m.writers[i])
    ensures BakIs(Act(m, j, a), i, bytes)
  {
    hide Act, LockHeld, LiveWhole, TempRight;
    assert TempRight(m.disk, m.writers[j]);
    ActEffect(m, j, a, initial);
    var v, w := m.writers[i], m.writers[j];
    var n := Act(m, j, a);
    if n.disk != m.disk {
      if v.tag == w.tag {
        ActingIsActive(m, j, a);
        assert v.kind.Local? && w.kind.Local?;
        OneActive(m, j, i);
      } else {
        assert !Touches(w.tag, Bak(v.tag));
        assert Same(m.disk, n.disk, Bak(v.tag));
      }
    }
  }

  lemma TakeKeepsBak(m: Machine, t: Turn, i: nat, bytes: Bytes, initial: Bytes)
    requires Kept(m, initial) && i < |m.writers| && BakIs(m, i, bytes)
    requires Backed(m.writers[i]) && i < |Take(m, t).writers| && Backed(Take(m, t).writers[i])
    ensures BakIs(Take(m, t), i, bytes)
  {
    hide Act, LockHeld, LiveWhole, Apart, BakIs, Backed;
    if t.who < |m.writers| {
      assert TempRight(m.disk, m.writers[i]);
      if t.who == i {
        OwnStepKeepsBak(m, i, t.act, bytes);
      } else {
        OtherStepKeepsBak(m, i, t.who, t.act, bytes, initial);
      }
    }
  }

  // ---------- Whole runs ----------

  lemma KeptHasLive(m: Machine, initial: Bytes)
    requires Kept(m, initial)
    ensures Sound(m.disk) && Live in m.disk.names
  {
  }

  lemma RunLast(m: Machine, turns: seq<Turn>)
    requires Sound(m.disk) && turns != []
    ensures Run(m, turns) == Take(Run(m, turns[..|turns| - 1]), turns[|turns| - 1])
  {
    hide Run, Take, Sound;
    assert turns == turns[..|turns| - 1] + [turns[|turns| - 1]];
    RunOn(m, turns[..|turns| - 1], turns[|turns| - 1]);
  }

  lemma TakeOthers(m: Machine, t: Turn, i: nat)
    requires Sound(m.disk) && i < |m.writers|
    ensures |Take(m, t).writers| == |m.writers|
    ensures t.who != i ==> Take(m, t).writers[i] == m.writers[i]
  {
    hide Act, Sound;
    if t.who < |m.writers| {
      ActMoves(m, t.who, t.act);
    }
  }

  /** A call with a backup made it at a step of its own; the backup holds the live
      bytes of that moment, as far as they were stored. */
  lemma {:induction false} BackupPoint(m: Machine, turns: seq<Turn>, i: nat, initial: Bytes) returns (b: nat)
    requires Kept(m, initial) && i < |m.writers| && !Backed(m.writers[i])
    requires |Run(m, turns).writers| == |m.writers| && Backed(Run(m, turns).writers[i])
    ensures b < |turns| && turns[b].who == i && turns[b].act.Backup?
    ensures var s := Run(m, turns[..b]);
      && Kept(s, initial) && |s.writers| == |m.writers| && s.writers[i].phase.Entered?
      && var stored := Run(m, turns).writers[i].stored;
         stored <= |Content(s.disk, Live)| && BakIs(Run(m, turns), i, Content(s.disk, Live)[..stored])
    decreases |turns|
  {
    hide Run, Take, Kept, Backed, BakIs, Sound, SameCall;
    KeptHasLive(m, initial);
    if turns == [] {
      RunNothing(m);
      assert false;
    } else {
      var front, last := turns[..|turns| - 1], turns[|turns| - 1];
      var s := Run(m, front);
      RunKeeps(m, front, initial);
      RunKeepsCalls(m, front);
      KeptHasLive(s, initial);
      RunLast(m, turns);
      TakeOthers(s, last, i);
      if Backed(s.writers[i]) {
        b := BackupPoint(m, front, i, initial);
        assert front[..b] == turns[..b];
        KeptHasLive(Run(m, turns[..b]), initial);
        TakeKeepsBak(s, last, i, Content(Run(m, turns[..b]).disk, Live)[..s.writers[i].stored], initial);
        if last.who == i {
          TakeActs(s, last);
          BackedByStep(s, i, last.act);
        }
      } else {
        b := |turns| - 1;
        TakeActs(s, last);
        BackedByStep(s, i, last.act);
      }
    }
  }

  lemma TakeActs(m: Machine, t: Turn)
    requires Sound(m.disk) && t.who < |m.writers|
    ensures Take(m, t) == Act(m, t.who, t.act)
  {
  }

  /** A call whose rename landed and was reported has recorded what was live then. */
  lemma {:induction false} RenamePoint(m: Machine, turns: seq<Turn>, i: nat, initial: Bytes) returns (r: nat)
    requires Kept(m, initial) && i < |m.writers| && !Landed(m.writers[i])
    requires |Run(m, turns).writers| == |m.writers| && Landed(Run(m, turns).writers[i])
    ensures r < |turns| && turns[r] == Turn(i, Rename(Lands))
    ensures var s := Run(m, turns[..r]);
      && Kept(s, initial) && |s.writers| == |m.writers| && s.writers[i].phase.Checked?
      && Run(m, turns).writers[i].replaced == Content(s.disk, Live)
    ensures forall k :: r < k <= |turns| ==> |Run(m, turns[..k]).writers| == |m.writers| && Landed(Run(m, turns[..k]).writers[i])
    decreases |turns|
  {
    hide Run, Take, Kept, Landed, Sound, SameCall;
    KeptHasLive(m, initial);
    assert turns[..|turns|] == turns;
    if turns == [] {
      RunNothing(m);
      assert false;
    } else {
      var front, last := turns[..|turns| - 1], turns[|turns| - 1];
      var s := Run(m, front);
      RunKeeps(m, front, initial);
      RunKeepsCalls(m, front);
      KeptHasLive(s, initial);
      RunLast(m, turns);
      TakeOthers(s, last, i);
      if Landed(s.writers[i]) {
        r := RenamePoint(m, front, i, initial);
        assert front[..r] == turns[..r];
        if last.who == i {
          TakeActs(s, last);
          LandedByStep(s, i, last.act);
        }
        forall k | r < k <= |turns|
          ensures |Run(m, turns[..k]).writers| == |m.writers| && Landed(Run(m, turns[..k]).writers[i])
        {
          assert k < |turns| ==> front[..k] == turns[..k];
        }
      } else {
        r := |turns| - 1;
        TakeActs(s, last);
        LandedByStep(s, i, last.act);
      }
    }
  }

  // ---------- Who wrote the live file ----------

  /** No rename lands between the two turns. */
  ghost predicate Undisturbed(m: Machine, turns: seq<Turn>, b: nat, r: nat)
    requires Sound(m.disk) && b < r < |turns|
  {
    forall k :: b < k < r ==> !Replaces(Run(m, turns[..k]), turns[k])
  }

  lemma TakeAuthor(m: Machine, t: Turn)
    requires Sound(m.disk)
    ensures Take(m, t).author == if Replaces(m, t) then Some(t.who) else m.author
  {
    hide Act, Sound;
    if t.who < |m.writers| {
      ActAuthor(m, t.who, t.act);
    }
  }

  lemma {:induction false} AuthorStays(m: Machine, turns: seq<Turn>, b: nat, r: nat)
    requires Sound(m.disk) && b <= r <= |turns|
    requires forall k :: b <= k < r ==> !Replaces(Run(m, turns[..k]), turns[k])
    ensures Run(m, turns[..r]).author == Run(m, turns[..b]).author
    decreases r
  {
    hide Run, Take, Sound, Replaces;
    if b < r {
      AuthorStays(m, turns, b, r - 1);
      RunLast(m, turns[..r]);
      assert turns[..r][..r - 1] == turns[..r - 1];
      TakeAuthor(Run(m, turns[..r - 1]), turns[r - 1]);
    }
  }

  /** The author's rename is behind it. */
  ghost predicate AuthorDone(m: Machine) {
    m.author.Some? ==> m.author.value < |m.writers| && Done(m.writers[m.author.value])
  }

  lemma TakeDone(m: Machine, t: Turn, y: nat)
    requires Sound(m.disk) && y < |m.writers|
    ensures |Take(m, t).writers| == |m.writers|
    ensures Done(m.writers[y]) ==> Done(Take(m, t).writers[y]) && !(Replaces(m, t) && t.who == y)
    ensures Replaces(m, t) ==> Done(Take(m, t).writers[t.who])
  {
    hide Act, Sound;
    TakeOthers(m, t, y);
    if t.who < |m.writers| {
      ActPhases(m, t.who, t.act);
      ActAuthor(m, t.who, t.act);
    }
  }

  lemma {:induction false} RunAuthorDone(m: Machine, turns: seq<Turn>)
    requires Sound(m.disk) && AuthorDone(m)
    ensures AuthorDone(Run(m, turns))
    decreases |turns|
  {
    hide Take, Sound, Done, Replaces;
    if turns != [] {
      TakeAuthor(m, turns[0]);
      if m.author.Some? {
        TakeDone(m, turns[0], m.author.value);
      }
      if Replaces(m, turns[0]) {
        ReplacesInRange(m, turns[0]);
        TakeDone(m, turns[0], turns[0].who);
      }
      RunAuthorDone(Take(m, turns[0]), turns[1..]);
    }
  }

  lemma ReplacesInRange(m: Machine, t: Turn)
    requires Replaces(m, t)
    ensures t.who < |m.writers| && t.act.Rename?
  {
  }

  /** A call past its rename never becomes the author again. */
  lemma {:induction false} NeverAgain(m: Machine, turns: seq<Turn>, y: nat)
    requires Sound(m.disk) && y < |m.writers| && Done(m.writers[y]) && m.author.Some? && m.author != Some(y)
    ensures Run(m, turns).author.Some? && Run(m, turns).author != Some(y)
    decreases |turns|
  {
    hide Take, Sound, Done, Replaces;
    if turns != [] {
      TakeAuthor(m, turns[0]);
      TakeDone(m, turns[0], y);
      NeverAgain(Take(m, turns[0]), turns[1..], y);
    }
  }

  lemma {:induction false} StaysSome(m: Machine, turns: seq<Turn>)
    requires Sound(m.disk) && m.author.Some?
    ensures Run(m, turns).author.Some?
    decreases |turns|
  {
    hide Take, Sound, Replaces;
    if turns != [] {
      TakeAuthor(m, turns[0]);
      StaysSome(Take(m, turns[0]), turns[1..]);
    }
  }

  lemma {:induction false} RunDone(m: Machine, turns: seq<Turn>, y: nat)
    requires Sound(m.disk) && y < |m.writers| && Done(m.writers[y])
    ensures |Run(m, turns).writers| == |m.writers| && Done(Run(m, turns).writers[y])
    decreases |turns|
  {
    hide Take, Sound, Done, Replaces;
    if turns != [] {
      TakeDone(m, turns[0], y);
      RunDone(Take(m, turns[0]), turns[1..], y);
    }
  }

  /** Once a rename lands, whoever was the author before is not again. */
  lemma AuthorChanges(m: Machine, turns: seq<Turn>, b: nat, k: nat, r: nat)
    requires Sound(m.disk) && AuthorDone(m) && b < k < r <= |turns| && Replaces(Run(m, turns[..k]), turns[k])
    ensures Run(m, turns[..r]).author.Some? && Run(m, turns[..r]).author != Run(m, turns[..b]).author
  {
    hide Run, Take, Sound, Done, Replaces;
    var s, t := Run(m, turns[..b]), Run(m, turns[..k]);
    RunAuthorDone(m, turns[..b]);
    assert turns[..k] == turns[..b] + turns[b..k] && turns[..k + 1] == turns[..k] + [turns[k]];
    RunJoin(m, turns[..b], turns[b..k]);
    RunOn(m, turns[..k], turns[k]);
    TakeAuthor(t, turns[k]);
    var u := Run(m, turns[..k + 1]);
    assert turns[..r] == turns[..k + 1] + turns[k + 1..r];
    RunJoin(m, turns[..k + 1], turns[k + 1..r]);
    StaysSome(u, turns[k + 1..r]);
    if s.author.Some? {
      RunDone(s, turns[b..k], s.author.value);
      TakeDone(t, turns[k], s.author.value);
      NeverAgain(u, turns[k + 1..r], s.author.value);
    }
  }

  // ---------- The backup of a successful call ----------

  /** The calls' contents and the first content all differ. */
  ghost predicate DistinctContents(m: Machine)
    requires Sound(m.disk) && Live in m.disk.names
  {
    && (forall j, k :: 0 <= j < k < |m.writers| ==> m.writers[j].content != m.writers[k].content)
    && (forall j :: 0 <= j < |m.writers| ==> m.writers[j].content != Content(m.disk, Live))
  }

  lemma LiveByAuthor(m: Machine, turns: seq<Turn>, b: nat, r: nat)
    requires Fresh(m) && Apart(m.writers) && b <= |turns| && r <= |turns|
    ensures var s, t := Run(m, turns[..b]), Run(m, turns[..r]);
      && Live in s.disk.names && Live in t.disk.names
      && (s.author == t.author ==> Content(s.disk, Live) == Content(t.disk, Live))
      && (s.author != t.author && DistinctContents(m) ==> Content(s.disk, Live) != Content(t.disk, Live))
  {
    hide Run, Apart;
    LiveAlwaysWhole(m, turns[..b]);
    LiveAlwaysWhole(m, turns[..r]);
  }

  /**
   Local calls and calls over SSH with names apart, in any interleaving: a call that
   leaves successfully has made its backup at one step and its rename at a later
   one; the backup holds what was live at the first, as far as it was stored, and
   what the call replaced is what was live at the second. If no other rename lands
   in between, the backup is that of the replaced content exactly when the copy
   stored everything. A whole copy, where the contents all differ, is of the
   replaced content exactly when no other rename lands in between.
   */
  lemma BackupExactly(m: Machine, turns: seq<Turn>, i: nat) returns (b: nat, r: nat)
    requires Fresh(m) && Apart(m.writers) && i < |m.writers|
    requires |Run(m, turns).writers| == |m.writers| && Run(m, turns).writers[i].phase == Leaving(true)
    ensures b < r < |turns| && turns[b].who == i && turns[b].act.Backup? && turns[r] == Turn(i, Rename(Lands))
    ensures var n, s, t := Run(m, turns), Run(m, turns[..b]), Run(m, turns[..r]);
      var w := n.writers[i];
      && Live in s.disk.names && Live in t.disk.names && Bak(w.tag) in n.disk.names
      && var saved, bak := Content(s.disk, Live), Content(n.disk, Bak(w.tag));
      && w.replaced == Content(t.disk, Live) && w.stored <= |saved| && bak == saved[..w.stored]
      && (Undisturbed(m, turns, b, r) ==> bak <= w.replaced && (bak == w.replaced <==> w.stored == |w.replaced|))
      && (DistinctContents(m) && w.stored == |saved| ==> (bak == w.replaced <==> Undisturbed(m, turns, b, r)))
  {
    hide Run, Apart, Take, Kept, Replaces, DistinctContents, Sound;
    var first := Content(m.disk, Live);
    FreshKept(m);
    b := BackupPoint(m, turns, i, first);
    r := RenamePoint(m, turns, i, first);
    EnteredIsNotLanded(Run(m, turns[..b]).writers[i]);
    assert turns[r].act.Rename? && turns[b].act.Backup?;
    LiveByAuthor(m, turns, b, r);
    if Undisturbed(m, turns, b, r) {
      NotARename(Run(m, turns[..b]), turns[b]);
      AuthorStays(m, turns, b, r);
    } else {
      var k :| b < k < r && Replaces(Run(m, turns[..k]), turns[k]);
      AuthorChanges(m, turns, b, k, r);
    }
  }

  lemma EnteredIsNotLanded(w: Writer)
    requires w.phase.Entered?
    ensures !Landed(w)
  {
  }

  lemma NotARename(m: Machine, t: Turn)
    requires t.act.Backup?
    ensures !Replaces(m, t)
  {
  }

  // ---------- A mixed run ----------

  /** Without a further backup step of its own, a call that is still backed keeps its backup. */
  lemma {:induction false} RunKeepsBak(m: Machine, turns: seq<Turn>, i: nat, bytes: Bytes, initial: Bytes)
    requires Kept(m, initial) && i < |m.writers| && BakIs(m, i, bytes)
    requires forall t :: t in turns ==> !(t.who == i && t.act.Backup?)
    requires |Run(m, turns).writers| == |m.writers| && Backed(Run(m, turns).writers[i])
    ensures BakIs(Run(m, turns), i, bytes) && Run(m, turns).writers[i].stored == m.writers[i].stored && Backed(m.writers[i])
    decreases |turns|
  {
    hide Run, Take, Kept, Backed, BakIs, Sound, SameCall;
    KeptHasLive(m, initial);
    if turns == [] {
      RunNothing(m);
    } else {
      var front, last := turns[..|turns| - 1], turns[|turns| - 1];
      var s := Run(m, front);
      RunKeeps(m, front, initial);
      RunKeepsCalls(m, front);
      KeptHasLive(s, initial);
      RunLast(m, turns);
      TakeOthers(s, last, i);
      if last.who == i {
        TakeActs(s, last);
        BackedByStep(s, i, last.act);
      }
      RunKeepsBak(m, front, i, bytes, initial);
      TakeKeepsBak(s, last, i, bytes, initial);
    }
  }

  /** A call enters and copies the whole live file. */
  lemma EnterAndCopy(m: Machine, v: nat, initial: Bytes) returns (turns: seq<Turn>)
    requires Kept(m, initial) && v < |m.writers| && m.writers[v].phase.Idle? && m.lock.None?
    ensures var n := Run(m, turns);
      && Kept(n, initial) && OnlyMoves(m, n, v) && n.writers[v].phase.Saved? && n.author == m.author
      && (m.writers[v].kind.Remote? ==> n.lock.None?)
      && n.writers[v].stored == |Content(m.disk, Live)| && BakIs(n, v, Content(m.disk, Live))
  {
    hide Run, Sound, Replaced, Kept, BakIs;
    KeptHasLive(m, initial);
    var live := Content(m.disk, Live);
    turns := [] + [Turn(v, Enter)] + [Turn(v, Backup(|live|, false))];
    var m1 := Take(m, Turn(v, Enter));
    RunNothing(m);
    RunOn(m, [], Turn(v, Enter));
    RunOn(m, [] + [Turn(v, Enter)], Turn(v, Backup(|live|, false)));
    RunKeeps(m, turns, initial);
    assert m1.disk == m.disk;
    BackupSaves(m1, v, |live|);
    assert live[..|live|] == live;
  }

  /** From an open temp file a call runs to its successful end, its lock apart. */
  lemma RunToEnd(m: Machine, v: nat, initial: Bytes) returns (turns: seq<Turn>)
    requires Kept(m, initial) && v < |m.writers| && OpenEmpty(m, v)
    ensures var n := Run(m, turns);
      && OnlyMoves(m, n, v) && n.writers[v].phase == Leaving(true) && n.writers[v].replaced == Content(m.disk, Live)
    ensures forall t :: t in turns ==> t.who == v && !t.act.Backup?
  {
    hide Run, Take, Sound, OpenEmpty, Apart, LockHeld;
    var a := RunToChecked(m, v);
    var m1 := Run(m, a);
    RunKeeps(m, a, initial);
    assert TempRight(m1.disk, m1.writers[v]);
    assert Content(m1.disk, Live) == Content(m.disk, Live);
    VerifyIt(m1, v);
    turns := a + [Turn(v, Rename(Lands))] + [Turn(v, Verify(false))];
    RunOn(m, a, Turn(v, Rename(Lands)));
    RunOn(m, a + [Turn(v, Rename(Lands))], Turn(v, Verify(false)));
  }

  lemma VerifyIt(m: Machine, v: nat)
    requires v < |m.writers| && Sound(m.disk) && m.writers[v].phase.Checked? && Live in m.disk.names
    requires Tmp(m.writers[v].tag) in m.disk.names && Content(m.disk, Tmp(m.writers[v].tag)) == m.writers[v].content
    ensures var n := Take(Take(m, Turn(v, Rename(Lands))), Turn(v, Verify(false)));
      OnlyMoves(m, n, v) && n.writers[v].phase == Leaving(true) && n.writers[v].replaced == Content(m.disk, Live)
  {
    hide Renamed, Sound;
    RenamingFrames(m.disk, Tmp(m.writers[v].tag), Live);
  }

  /**
   Of two calls that are not both local, one can rename between the other's backup
   and its rename: both succeed, and the second's backup, though whole, is of the
   first content and not of what it replaced.
   */
  lemma MixedRunMisleads(m: Machine, i: nat, j: nat) returns (turns: seq<Turn>)
    requires Fresh(m) && Apart(m.writers) && i < |m.writers| && j < |m.writers| && i != j
    requires !BothLocal(m.writers[i], m.writers[j])
    ensures var n := Run(m, turns);
      && |n.writers| == |m.writers| && n.writers[i].phase == Leaving(true) && n.writers[j].phase == Gone(true)
      && n.writers[i].stored == |Content(m.disk, Live)| && BakIs(n, i, Content(m.disk, Live))
      && n.writers[i].replaced == m.writers[j].content
  {
    hide Run, Take, Sound, OpenEmpty, Apart, Kept, BakIs;
    var first := Content(m.disk, Live);
    FreshKept(m);
    var a := EnterAndCopy(m, i, first);
    var m1 := Run(m, a);
    var b := RunWholeCall(m1, j, first);
    var m2 := Run(m1, b);
    KeptHasLive(m2, first);
    OpenIt(m2, i);
    var m3 := Take(m2, Turn(i, Open(false)));
    RunNothing(m2);
    RunOn(m2, [], Turn(i, Open(false)));
    RunKeeps(m2, [] + [Turn(i, Open(false))], first);
    SameLive(m2, m3, first);
    var c := RunToEnd(m3, i, first);
    var rest := b + ([] + [Turn(i, Open(false))]) + c;
    RunJoin(m1, b, [] + [Turn(i, Open(false))]);
    RunJoin(m1, b + ([] + [Turn(i, Open(false))]), c);
    RunJoin(m, a, rest);
    turns := a + rest;
    RunKeepsBak(m1, rest, i, first, first);
  }

  lemma SameLive(m: Machine, n: Machine, initial: Bytes)
    requires Kept(m, initial) && Kept(n, initial) && n.author == m.author && |n.writers| == |m.writers|
    requires forall k :: 0 <= k < |m.writers| ==> SameCall(m.writers[k], n.writers[k])
    ensures Content(n.disk, Live) == Content(m.disk, Live)
  {
    hide Sound, Apart, LockHeld, TempRight;
  }
}
