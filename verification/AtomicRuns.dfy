/** Whole runs of interleaved rw-eap.conf writers: what the live file and the backups hold. */
module AtomicRuns {
  import opened AtomicWriter
  import opened Options

  /** Writer `who` tries to take step `act`. */
  datatype Turn = Turn(who: nat, act: Action)

  lemma ActSound(m: Machine, i: nat, a: Action)
    requires i < |m.writers| && Sound(m.disk)
    ensures Sound(Act(m, i, a).disk)
  {
    hide Opened, Replaced, Stored, Renamed, Unlinked, Sound;
    var d, w := m.disk, m.writers[i];
    OpeningFrames(d, Tmp(w.tag));
    match (w.phase, a)
    case (Entered, Backup(n, _)) =>
      if Live in d.names {
        ReplacingFrames(d, Bak(w.tag), Content(d, Live)[..Min(n, |Content(d, Live)|)]);
      }
    case (Writing(inode, offset), Store(n)) => StoringSound(m, i, n);
    case (Doomed, Unlink) => UnlinkingSound(d, Tmp(w.tag));
    case (Checked, Rename(_)) =>
      if Tmp(w.tag) in d.names {
        RenamingFrames(d, Tmp(w.tag), Live);
      }
    case _ =>
  }

  lemma StoringSound(m: Machine, i: nat, count: nat)
    requires i < |m.writers| && Sound(m.disk) && m.writers[i].phase.Writing?
    ensures Sound(Storing(m, i, count).disk)
  {
  }

  lemma UnlinkingSound(d: Disk, p: Path)
    requires Sound(d)
    ensures Sound(Unlinked(d, p))
  {
  }

  ghost function Take(m: Machine, t: Turn): (n: Machine)
    requires Sound(m.disk)
    ensures Sound(n.disk)
  {
    if t.who < |m.writers| then
      ActSound(m, t.who, t.act);
      Act(m, t.who, t.act)
    else m
  }

  ghost function Run(m: Machine, turns: seq<Turn>): (n: Machine)
    requires Sound(m.disk)
    ensures Sound(n.disk)
    decreases |turns|
  {
    if turns == [] then m else Run(Take(m, turns[0]), turns[1..])
  }

  /** No call has started, the lock is free and the live file exists; names of
      earlier calls may be left over. */
  ghost predicate Fresh(m: Machine) {
    && Sound(m.disk) && Live in m.disk.names && m.lock.None? && m.author.None?
    && forall i :: 0 <= i < |m.writers| ==> m.writers[i].phase.Idle?
  }

  // ---------- Every step keeps the live file whole ----------

  lemma ActingIsActive(m: Machine, i: nat, a: Action)
    requires i < |m.writers| && Sound(m.disk)
    requires Act(m, i, a).disk != m.disk || Act(m, i, a).author != m.author
    ensures Active(m.writers[i])
  {
    hide Sound, Opened, Replaced, Stored, Renamed, Unlinked;
  }

  /** Two writers with one tag are never both active. */
  lemma OneActive(m: Machine, i: nat, j: nat)
    requires LockHeld(m) && i < |m.writers| && j < |m.writers| && i != j
    requires m.writers[i].kind.Local? && m.writers[j].kind.Local? && Active(m.writers[i])
    ensures !Active(m.writers[j])
  {
    assert m.lock == Some(i);
  }

  lemma OthersStay(m: Machine, i: nat, j: nat, a: Action, initial: Bytes)
    requires i < |m.writers| && j < |m.writers| && i != j && Kept(m, initial)
    ensures var n := Act(m, i, a); Sound(n.disk) && n.writers == m.writers[i := n.writers[i]] && TempRight(n.disk, n.writers[j])
  {
    hide LockHeld, LiveWhole, Act;
    var n := Act(m, i, a);
    ActEffect(m, i, a, initial);
    assert n.writers == m.writers[i := n.writers[i]];
    var v, w := m.writers[i], m.writers[j];
    assert TempRight(m.disk, w);
    if n.disk != m.disk {
      if v.tag == w.tag {
        ActingIsActive(m, i, a);
        assert v.kind.Local? && w.kind.Local?;
        OneActive(m, i, j);
      } else {
        assert !Touches(v.tag, Tmp(w.tag));
        assert Same(m.disk, n.disk, Tmp(w.tag));
      }
    }
  }

  lemma ActKeeps(m: Machine, i: nat, a: Action, initial: Bytes)
    requires i < |m.writers| && Kept(m, initial)
    ensures Kept(Act(m, i, a), initial)
  {
    hide LockHeld, LiveWhole, TempRight, Act, Sound, Same;
    var n := Act(m, i, a);
    ActKeepsLock(m, i, a);
    ActEffect(m, i, a, initial);
    forall j | 0 <= j < |n.writers| ensures TempRight(n.disk, n.writers[j]) {
      if j != i {
        OthersStay(m, i, j, a, initial);
      }
    }
    forall j, k | 0 <= j < k < |n.writers| && n.writers[j].tag == n.writers[k].tag
      ensures n.writers[j].kind.Local? && n.writers[k].kind.Local?
    {
      assert SameCall(m.writers[j], n.writers[j]) && SameCall(m.writers[k], n.writers[k]);
    }
  }

  lemma TakeKeeps(m: Machine, t: Turn, initial: Bytes)
    requires Kept(m, initial)
    ensures Kept(Take(m, t), initial)
  {
    if t.who < |m.writers| {
      ActKeeps(m, t.who, t.act, initial);
    }
  }

  lemma {:induction false} RunKeeps(m: Machine, turns: seq<Turn>, initial: Bytes)
    requires Kept(m, initial)
    ensures Kept(Run(m, turns), initial)
    decreases |turns|
  {
    hide Take, LiveWhole, LockHeld, Apart, TempRight, Sound;
    if turns != [] {
      TakeKeeps(m, turns[0], initial);
      RunKeeps(Take(m, turns[0]), turns[1..], initial);
    }
  }

  lemma FreshKept(m: Machine)
    requires Fresh(m) && Apart(m.writers)
    ensures Kept(m, Content(m.disk, Live))
  {
  }

  lemma {:induction false} RunKeepsCalls(m: Machine, turns: seq<Turn>)
    requires Sound(m.disk)
    ensures |Run(m, turns).writers| == |m.writers|
    ensures forall i :: 0 <= i < |m.writers| ==> SameCall(m.writers[i], Run(m, turns).writers[i])
    decreases |turns|
  {
    hide Act, Sound;
    if turns != [] {
      var t := turns[0];
      if t.who < |m.writers| {
        ActMoves(m, t.who, t.act);
      }
      RunKeepsCalls(Take(m, t), turns[1..]);
    }
  }

  /**
   At every point of every run, with crashes, faults and short writes anywhere,
   the live file holds all of what it held at first or all of what one call
   writes: the last one whose rename landed. Local calls may share names;
   calls over SSH must not.
   */
  lemma LiveAlwaysWhole(m: Machine, turns: seq<Turn>)
    requires Fresh(m) && Apart(m.writers)
    ensures var n := Run(m, turns);
      && Live in n.disk.names
      && match n.author
         case None => Content(n.disk, Live) == Content(m.disk, Live)
         case Some(i) => i < |m.writers| && Content(n.disk, Live) == m.writers[i].content
  {
    hide Run, Apart, TempRight, LockHeld;
    FreshKept(m);
    RunKeeps(m, turns, Content(m.disk, Live));
    RunKeepsCalls(m, turns);
  }

  /** The lock is never lost: it is free, or its holder is a local call still on its way. */
  lemma LockNeverStuck(m: Machine, turns: seq<Turn>)
    requires Fresh(m) && Apart(m.writers)
    ensures var n := Run(m, turns);
      n.lock.Some? ==> n.lock.value < |n.writers| && n.writers[n.lock.value].kind.Local? && Active(n.writers[n.lock.value])
  {
    hide Run, Apart, TempRight, LiveWhole;
    FreshKept(m);
    RunKeeps(m, turns, Content(m.disk, Live));
  }

  // ---------- Landed renames ----------

  /** This turn's rename lands. */
  predicate Replaces(m: Machine, t: Turn) {
    && t.who < |m.writers| && m.writers[t.who].phase.Checked?
    && t.act.Rename? && !t.act.landing.Fails?
    && Tmp(m.writers[t.who].tag) in m.disk.names
  }

  /** Past its rename. */
  predicate Done(w: Writer) {
    w.phase.Swapped? || w.phase.Leaving? || w.phase.Gone? || w.phase.Crashed?
  }

  lemma ActPhases(m: Machine, i: nat, a: Action)
    requires i < |m.writers| && Sound(m.disk)
    ensures var v, w := m.writers[i], Act(m, i, a).writers[i];
      && (w.phase.Idle? ==> v.phase.Idle?)
      && (Done(v) ==> Done(w))
      && (v.phase.Idle? && !a.Enter? ==> w.phase.Idle? || w.phase.Crashed?)
      && (v.phase.Crashed? ==> w.phase.Crashed?)
  {
    hide Sound, Opened, Replaced, Stored, Renamed, Unlinked;
  }

  lemma ActAuthor(m: Machine, i: nat, a: Action)
    requires i < |m.writers| && Sound(m.disk)
    ensures var n := Act(m, i, a);
      if Replaces(m, Turn(i, a)) then n.author == Some(i) && Done(n.writers[i]) else n.author == m.author
  {
    hide Sound, Opened, Replaced, Stored, Renamed, Unlinked;
  }

  // ---------- Backups under the lock ----------

  predicate BothLocal(v: Writer, w: Writer) {
    v.kind.Local? && w.kind.Local?
  }

  /** The lock keeps all the calls apart: they are local, or there is only one. */
  ghost predicate Serial(ws: seq<Writer>) {
    forall i, j :: 0 <= i < j < |ws| ==> BothLocal(ws[i], ws[j])
  }

  /** The backup holds as much as was stored of `bytes`. */
  ghost predicate BackupOf(d: Disk, tag: string, stored: nat, bytes: Bytes)
    requires Sound(d)
  {
    Bak(tag) in d.names && stored <= |bytes| && Content(d, Bak(tag)) == bytes[..stored]
  }

  /** Up to its rename a call's backup is of the live file; afterwards, until it
      leaves, of what it replaced. */
  ghost predicate BackupRight(m: Machine, i: nat)
    requires Sound(m.disk) && i < |m.writers|
  {
    var w := m.writers[i];
    match w.phase
    case Saved => Live in m.disk.names && BackupOf(m.disk, w.tag, w.stored, Content(m.disk, Live))
    case Writing(_, _) => Live in m.disk.names && BackupOf(m.disk, w.tag, w.stored, Content(m.disk, Live))
    case Written => Live in m.disk.names && BackupOf(m.disk, w.tag, w.stored, Content(m.disk, Live))
    case Checked => Live in m.disk.names && BackupOf(m.disk, w.tag, w.stored, Content(m.disk, Live))
    case Swapped => m.author == Some(i) && BackupOf(m.disk, w.tag, w.stored, w.replaced)
    case Leaving(ok) => ok ==> m.author == Some(i) && BackupOf(m.disk, w.tag, w.stored, w.replaced)
    case _ => true
  }

  lemma BackupKeptElsewhere(d: Disk, e: Disk, w: Writer)
    requires Sound(d) && Sound(e)
    requires Live in d.names && BackupOf(d, w.tag, w.stored, Content(d, Live)) && Same(d, e, Bak(w.tag)) && Same(d, e, Live)
    ensures Live in e.names && BackupOf(e, w.tag, w.stored, Content(e, Live))
  {
  }

  lemma OwnBackup(m: Machine, i: nat, a: Action, initial: Bytes)
    requires i < |m.writers| && Kept(m, initial) && BackupRight(m, i)
    ensures Sound(Act(m, i, a).disk) && BackupRight(Act(m, i, a), i)
  {
    hide Opened, Replaced, Stored, Renamed, Unlinked, Sound, LockHeld, Apart, LiveWhole, Same, BackupOf;
    var w, d, n := m.writers[i], m.disk, Act(m, i, a);
    ActSound(m, i, a);
    match (w.phase, a)
    case (Entered, Backup(count, fault)) => SavedBackup(m, i, count, fault);
    case (Saved, Open(fault)) =>
      OpeningFrames(d, Tmp(w.tag));
      if n.writers[i].phase.Writing? {
        BackupKeptElsewhere(d, n.disk, w);
      }
    case (Writing(_, _), Store(count)) => StoringBackup(m, i, count);
    case (Checked, Rename(landing)) => RenamedBackup(m, i, landing);
    case _ =>
  }

  lemma SavedBackup(m: Machine, i: nat, count: nat, fault: bool)
    requires i < |m.writers| && Sound(m.disk)
    ensures Sound(BackingUp(m, i, count, fault).disk) && BackupRight(BackingUp(m, i, count, fault), i)
  {
    hide Replaced;
    var live := if Live in m.disk.names then Content(m.disk, Live) else [];
    ReplacingFrames(m.disk, Bak(m.writers[i].tag), live[..Min(count, |live|)]);
    assert Same(m.disk, Replaced(m.disk, Bak(m.writers[i].tag), live[..Min(count, |live|)]), Live);
  }

  lemma StoringBackup(m: Machine, i: nat, count: nat)
    requires i < |m.writers| && Sound(m.disk) && m.writers[i].phase.Writing?
    requires TempRight(m.disk, m.writers[i]) && BackupRight(m, i)
    ensures Sound(Storing(m, i, count).disk) && BackupRight(Storing(m, i, count), i)
  {
    hide BackupOf, Stored;
    var w, n := m.writers[i], Storing(m, i, count);
    var k := Min(count, |w.content| - w.phase.offset);
    StoringFrames(m.disk, Tmp(w.tag), w.phase.offset, w.content[w.phase.offset..w.phase.offset + k]);
    BackupKeptElsewhere(m.disk, n.disk, w);
  }

  lemma RenamedBackup(m: Machine, i: nat, landing: Landing)
    requires i < |m.writers| && Sound(m.disk) && m.writers[i].phase.Checked? && BackupRight(m, i)
    ensures Sound(Renaming(m, i, landing).disk) && BackupRight(Renaming(m, i, landing), i)
  {
    hide Renamed;
    if Tmp(m.writers[i].tag) in m.disk.names {
      RenamingFrames(m.disk, Tmp(m.writers[i].tag), Live);
      assert Same(m.disk, Renamed(m.disk, Tmp(m.writers[i].tag), Live), Bak(m.writers[i].tag));
    }
  }

  ghost predicate BackupsRight(m: Machine)
    requires Sound(m.disk)
  {
    forall i :: 0 <= i < |m.writers| ==> BackupRight(m, i)
  }

  lemma SerialPair(ws: seq<Writer>, i: nat, j: nat)
    requires Serial(ws) && i < |ws| && j < |ws| && i != j
    ensures BothLocal(ws[i], ws[j])
  {
    assert BothLocal(ws[if i < j then i else j], ws[if i < j then j else i]);
  }

  lemma SerialStays(m: Machine, n: Machine, i: nat)
    requires Serial(m.writers) && OnlyMoves(m, n, i)
    ensures Serial(n.writers)
  {
    forall j, k | 0 <= j < k < |n.writers| ensures BothLocal(n.writers[j], n.writers[k]) {
      assert BothLocal(m.writers[j], m.writers[k]);
      assert SameCall(m.writers[j], n.writers[j]) && SameCall(m.writers[k], n.writers[k]);
    }
  }

  lemma TakeKeepsBackups(m: Machine, t: Turn, initial: Bytes)
    requires Kept(m, initial) && Serial(m.writers) && BackupsRight(m)
    ensures BackupsRight(Take(m, t)) && Serial(Take(m, t).writers)
  {
    hide Act, Sound, LiveWhole, TempRight, BackupOf, Apart, Same, LockHeld, Serial;
    if t.who < |m.writers| {
      var i, n := t.who, Take(m, t);
      ActMoves(m, i, t.act);
      OwnBackup(m, i, t.act, initial);
      SerialStays(m, n, i);
      forall j | 0 <= j < |m.writers| ensures BackupRight(n, j) {
        assert BackupRight(m, j);
        if j != i && (n.disk != m.disk || n.author != m.author) {
          SerialPair(m.writers, i, j);
          ActingIsActive(m, i, t.act);
          OneActive(m, i, j);
        }
      }
    }
  }

  lemma {:induction false} RunKeepsBackups(m: Machine, turns: seq<Turn>, initial: Bytes)
    requires Kept(m, initial) && Serial(m.writers) && BackupsRight(m)
    ensures BackupsRight(Run(m, turns))
    decreases |turns|
  {
    hide Take, LiveWhole, LockHeld, Apart, TempRight, Sound, BackupRight;
    if turns != [] {
      TakeKeeps(m, turns[0], initial);
      TakeKeepsBackups(m, turns[0], initial);
      RunKeepsBackups(Take(m, turns[0]), turns[1..], initial);
    }
  }

  /**
   Local calls, in any interleaving, or one call over SSH: when a call leaves successfully, its
   bytes are the live file and its backup holds as much of the content it
   replaced as the copy stored. The backup's size is never checked, so the two
   are equal exactly when the copy stored everything.
   */
  lemma BackupOfSuccess(m: Machine, turns: seq<Turn>, i: nat)
    requires Fresh(m) && Serial(m.writers) && i < |Run(m, turns).writers|
    requires Run(m, turns).writers[i].phase == Leaving(true)
    ensures var n := Run(m, turns);
      var w := n.writers[i];
      && n.author == Some(i) && Live in n.disk.names && Content(n.disk, Live) == w.content
      && Bak(w.tag) in n.disk.names && Content(n.disk, Bak(w.tag)) <= w.replaced
      && (Content(n.disk, Bak(w.tag)) == w.replaced <==> w.stored == |w.replaced|)
  {
    hide Run, TempRight, LockHeld;
    FreshKept(m);
    RunKeeps(m, turns, Content(m.disk, Live));
    RunKeepsBackups(m, turns, Content(m.disk, Live));
    assert BackupRight(Run(m, turns), i);
  }

  // ---------- Shared temp names ----------

  lemma {:induction false} RunOn(m: Machine, turns: seq<Turn>, t: Turn)
    requires Sound(m.disk)
    ensures Run(m, turns + [t]) == Take(Run(m, turns), t)
    decreases |turns|
  {
    hide Take, Sound;
    if turns == [] {
      assert turns + [t] == [t];
      assert [t][1..] == [];
    } else {
      assert (turns + [t])[1..] == turns[1..] + [t];
      RunOn(Take(m, turns[0]), turns[1..], t);
    }
  }

  /** Writer `v` of `m` has moved on in `n`; the others and the last author are as they were. */
  ghost predicate Alone(m: Machine, n: Machine, v: nat)
    requires v < |m.writers|
  {
    && Sound(n.disk) && Live in n.disk.names && OnlyMoves(m, n, v) && n.author == m.author
    && (n.lock == m.lock || n.writers[v].kind.Local?)
  }

  /** Writer `v`'s temp file exists, is open at its start and empty. */
  ghost predicate OpenEmpty(m: Machine, v: nat)
    requires v < |m.writers| && Sound(m.disk)
  {
    var p := Tmp(m.writers[v].tag);
    p in m.disk.names && m.writers[v].phase == Writing(m.disk.names[p], 0) && Content(m.disk, p) == []
  }

  lemma EnterAndBackUp(m: Machine, v: nat)
    requires v < |m.writers| && Sound(m.disk) && Live in m.disk.names
    requires m.writers[v].phase.Idle? && (m.writers[v].kind.Local? ==> m.lock.None?)
    ensures var n := Take(Take(m, Turn(v, Enter)), Turn(v, Backup(0, false)));
      Alone(m, n, v) && n.writers[v].phase.Saved?
  {
    hide Replaced, Sound, Same;
    var m1 := Take(m, Turn(v, Enter));
    assert m1.disk == m.disk;
    var p, live := Bak(m.writers[v].tag), Content(m1.disk, Live);
    ReplacingFrames(m1.disk, p, live[..Min(0, |live|)]);
    assert Same(m1.disk, Replaced(m1.disk, p, live[..Min(0, |live|)]), Live);
    SameStays(m1.disk, Replaced(m1.disk, p, live[..Min(0, |live|)]), Live);
  }

  lemma SameStays(d: Disk, e: Disk, p: Path)
    requires Same(d, e, p) && p in d.names
    ensures p in e.names && (Sound(d) && Sound(e) ==> Content(e, p) == Content(d, p))
  {
  }

  lemma OpenIt(m: Machine, v: nat)
    requires v < |m.writers| && Sound(m.disk) && Live in m.disk.names && m.writers[v].phase.Saved?
    ensures var n := Take(m, Turn(v, Open(false)));
      Alone(m, n, v) && OpenEmpty(n, v) && n.lock == m.lock
  {
    hide Opened, Sound, Same;
    var p := Tmp(m.writers[v].tag);
    OpeningFrames(m.disk, p);
    assert Same(m.disk, Opened(m.disk, p), Live);
    SameStays(m.disk, Opened(m.disk, p), Live);
  }

  /** With nothing in its way a call gets to the point where its temp file is open. */
  lemma RunToOpen(m: Machine, v: nat) returns (turns: seq<Turn>)
    requires v < |m.writers| && Sound(m.disk) && Live in m.disk.names
    requires m.writers[v].phase.Idle? && (m.writers[v].kind.Local? ==> m.lock.None?)
    ensures Alone(m, Run(m, turns), v) && OpenEmpty(Run(m, turns), v)
    ensures forall t :: t in turns ==> t.who == v
  {
    hide Run, Take, OpenEmpty, Sound;
    EnterAndBackUp(m, v);
    var m2 := Take(Take(m, Turn(v, Enter)), Turn(v, Backup(0, false)));
    OpenIt(m2, v);
    turns := [Turn(v, Enter), Turn(v, Backup(0, false)), Turn(v, Open(false))];
    RunIs(m, turns);
  }

  lemma RunIs(m: Machine, turns: seq<Turn>)
    requires Sound(m.disk) && |turns| == 3
    ensures Run(m, turns) == Take(Take(Take(m, turns[0]), turns[1]), turns[2])
  {
    hide Take, Sound, Run;
    assert turns == [] + [turns[0]] + [turns[1]] + [turns[2]];
    RunOn(m, [], turns[0]);
    RunOn(m, [] + [turns[0]], turns[1]);
    RunOn(m, [] + [turns[0]] + [turns[1]], turns[2]);
    RunNothing(m);
  }

  lemma RunNothing(m: Machine)
    requires Sound(m.disk)
    ensures Run(m, []) == m
  {
  }

  lemma StoreAll(m: Machine, v: nat)
    requires v < |m.writers| && Sound(m.disk) && Live in m.disk.names && OpenEmpty(m, v)
    ensures var n := Take(m, Turn(v, Store(|m.writers[v].content|)));
      && Alone(m, n, v) && n.lock == m.lock && n.writers[v].phase.Writing?
      && var p := Tmp(n.writers[v].tag); p in n.disk.names && Content(n.disk, p) == n.writers[v].content
  {
    hide WrittenAt, Sound;
    var w := m.writers[v];
    var c := w.content;
    assert c[0..0 + |c|] == c && c[..0] == [] && c[..0 + |c|] == c;
    WriteExtends(c, 0, |c|);
    StoringFrames(m.disk, Tmp(w.tag), 0, c);
    SoundAt(m.disk, Tmp(w.tag));
  }

  lemma SoundAt(d: Disk, p: Path)
    requires Sound(d) && p in d.names
    ensures d.names[p] < |d.data|
  {
  }

  /** From there, writing everything passes the size check. */
  lemma RunToChecked(m: Machine, v: nat) returns (turns: seq<Turn>)
    requires v < |m.writers| && Sound(m.disk) && Live in m.disk.names && OpenEmpty(m, v)
    ensures var n := Run(m, turns);
      Alone(m, n, v) && n.lock == m.lock && n.writers[v].phase.Checked? && Tmp(n.writers[v].tag) in n.disk.names
    ensures forall t :: t in turns ==> t.who == v && !t.act.Backup?
  {
    hide Run, OpenEmpty, Sound;
    StoreAll(m, v);
    turns := [Turn(v, Store(|m.writers[v].content|)), Turn(v, Close(false)), Turn(v, Stat(false))];
    RunIs(m, turns);
  }

  lemma {:induction false} RunJoin(m: Machine, a: seq<Turn>, b: seq<Turn>)
    requires Sound(m.disk)
    ensures Run(m, a + b) == Run(Run(m, a), b)
    decreases |a|
  {
    hide Take, Sound;
    if a == [] {
      assert a + b == b;
    } else {
      assert (a + b)[1..] == a[1..] + b;
      RunJoin(Take(m, a[0]), a[1..], b);
    }
  }

  lemma RenameIt(m: Machine, v: nat)
    requires v < |m.writers| && Sound(m.disk) && m.writers[v].phase.Checked?
    requires Tmp(m.writers[v].tag) in m.disk.names
    ensures var n := Take(m, Turn(v, Rename(Lands)));
      n.author == Some(v) && Live in n.disk.names && Content(n.disk, Live) == Content(m.disk, Tmp(m.writers[v].tag))
      && OnlyMoves(m, n, v)
  {
    hide Renamed;
    RenamingFrames(m.disk, Tmp(m.writers[v].tag), Live);
  }

  lemma FinishIt(m: Machine, v: nat)
    requires v < |m.writers| && Sound(m.disk) && m.writers[v].phase.Checked?
    requires Tmp(m.writers[v].tag) in m.disk.names && Content(m.disk, Tmp(m.writers[v].tag)) == m.writers[v].content
    ensures var n := Take(Take(Take(m, Turn(v, Rename(Lands))), Turn(v, Verify(false))), Turn(v, Leave));
      OnlyMoves(m, n, v) && n.writers[v].phase == Gone(true) && n.author == Some(v)
  {
    hide Renamed, Sound;
    RenamingFrames(m.disk, Tmp(m.writers[v].tag), Live);
  }

  /** An idle call with nothing in its way runs to its successful end. */
  lemma RunWholeCall(m: Machine, v: nat, initial: Bytes) returns (turns: seq<Turn>)
    requires Kept(m, initial) && v < |m.writers| && m.writers[v].phase.Idle? && (m.writers[v].kind.Local? ==> m.lock.None?)
    ensures var n := Run(m, turns);
      && OnlyMoves(m, n, v) && n.writers[v].phase == Gone(true)
      && Kept(n, initial) && Content(n.disk, Live) == m.writers[v].content
    ensures forall t :: t in turns ==> t.who == v
  {
    hide Run, Take, Sound, OpenEmpty, Apart, LockHeld;
    var a := RunToOpen(m, v);
    var m1 := Run(m, a);
    var b := RunToChecked(m1, v);
    var m2 := Run(m1, b);
    RunKeeps(m, a, initial);
    RunKeeps(m1, b, initial);
    assert TempRight(m2.disk, m2.writers[v]);
    FinishIt(m2, v);
    var c := [Turn(v, Rename(Lands)), Turn(v, Verify(false)), Turn(v, Leave)];
    RunIs(m2, c);
    RunKeeps(m2, c, initial);
    RunJoin(m, a, b);
    RunJoin(m, a + b, c);
    turns := a + b + c;
  }

  /** At this state the live file holds all of the last renamer's bytes. */
  ghost predicate Whole(m: Machine)
    requires Sound(m.disk)
  {
    && Live in m.disk.names
    && (m.author.Some? ==> m.author.value < |m.writers| && Content(m.disk, Live) == m.writers[m.author.value].content)
  }

  /**
   Two calls that share a temp name and are not both serialised by the lock: the
   second opens, and so truncates, the file between the first one's size check
   and its rename, and the live file is empty.
   */
  lemma SharedNameEmptiesLive(m: Machine, v: nat, o: nat) returns (turns: seq<Turn>)
    requires Fresh(m) && v < |m.writers| && o < |m.writers| && v != o
    requires m.writers[v].tag == m.writers[o].tag && !(m.writers[v].kind.Local? && m.writers[o].kind.Local?)
    ensures var n := Run(m, turns);
      && n.author == Some(v) && |n.writers| == |m.writers| && n.writers[v].content == m.writers[v].content
      && Live in n.disk.names && Content(n.disk, Live) == []
  {
    hide Run, Take, Sound;
    var a := RunToOpen(m, v);
    var m1 := Run(m, a);
    var b := RunToChecked(m1, v);
    var m2 := Run(m1, b);
    assert m2.writers[o] == m.writers[o];
    var c := RunToOpen(m2, o);
    var m3 := Run(m2, c);
    assert m3.writers[v] == m2.writers[v];
    RenameIt(m3, v);
    RunJoin(m, a, b);
    RunJoin(m, a + b, c);
    turns := a + b + c + [Turn(v, Rename(Lands))];
    RunOn(m, a + b + c, Turn(v, Rename(Lands)));
  }

  /** For calls that write something, the names being apart is exactly what whole content needs. */
  lemma WholeExactlyWhenApart(m: Machine)
    requires Fresh(m) && forall i :: 0 <= i < |m.writers| ==> m.writers[i].content != []
    ensures (forall turns :: Whole(Run(m, turns))) <==> Apart(m.writers)
  {
    hide Run;
    if Apart(m.writers) {
      forall turns ensures Whole(Run(m, turns)) {
        LiveAlwaysWhole(m, turns);
        RunKeepsCalls(m, turns);
      }
    } else {
      var i, j :| 0 <= i < j < |m.writers| && m.writers[i].tag == m.writers[j].tag
        && !(m.writers[i].kind.Local? && m.writers[j].kind.Local?);
      var turns := SharedNameEmptiesLive(m, i, j);
      assert !Whole(Run(m, turns));
    }
  }
}
