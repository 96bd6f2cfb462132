/** The two writers of host/safe_write_rw_eap.py as they run, each with nobody in its way. */
module AtomicHost {
  import opened AtomicWriter
  import opened AtomicRuns
  import opened Options

  /** How the environment treats one call. */
  datatype Luck = Luck(
    copied: nat,
    copyFault: bool,
    openFault: bool,
    chunks: seq<nat>,
    closeFault: bool,
    statFault: bool,
    landing: Landing,
    finalFault: bool)

  function Sum(chunks: seq<nat>): nat {
    if chunks == [] then 0 else Sum(chunks[..|chunks| - 1]) + chunks[|chunks| - 1]
  }

  /** Nothing goes wrong: no step raises, and as much is written as the content has. */
  predicate Lucky(luck: Luck, size: nat) {
    && !luck.copyFault && !luck.openFault && !luck.closeFault && !luck.statFault && !luck.finalFault
    && luck.landing == Lands && Sum(luck.chunks) >= size
  }

  /** The rename lands, reported or not. */
  predicate Renames(luck: Luck, size: nat) {
    && !luck.copyFault && !luck.openFault && !luck.closeFault && !luck.statFault
    && Sum(luck.chunks) >= size && !luck.landing.Fails?
  }

  /** The temp name stays: the rename failed, or the local call's size check raised. */
  predicate LeavesTemp(luck: Luck, kind: Kind, size: nat) {
    && !luck.copyFault && !luck.openFault && !luck.closeFault
    && (if luck.statFault then kind.Local? else Sum(luck.chunks) >= size && luck.landing.Fails?)
  }

  /** One call about to start on a disk. */
  ghost function Start(d: Disk, kind: Kind, content: Bytes, tag: string): Machine {
    Machine(d, None, [Writer(kind, content, tag, Idle, 0, [])], None)
  }

  function Call(kind: Kind, content: Bytes, tag: string): Writer {
    Writer(kind, content, tag, Idle, 0, [])
  }

  /** What a finished call leaves: on success its bytes live, with a backup of
      what they replaced; otherwise the old live bytes or, if the rename had
      already landed, the new ones. */
  ghost predicate Outcome(before: Disk, after: Disk, content: Bytes, tag: string, written: Option<nat>)
    requires Sound(before)
  {
    && Sound(after)
    && (Live in before.names ==>
          && Live in after.names
          && (Content(after, Live) == content || (written.None? && Content(after, Live) == Content(before, Live)))
          && (written.Some? ==>
                && written.value == |content| && Bak(tag) in after.names
                && Content(after, Bak(tag)) <= Content(before, Live)))
    && (Live !in before.names ==> written.None? && after == before)
  }

  lemma SuccessIsLive(before: Disk, after: Disk, content: Bytes, tag: string, written: Option<nat>)
    requires Sound(before) && Outcome(before, after, content, tag, written) && written.Some?
    ensures Live in after.names && after.names[Live] < |after.data| && after.data[after.names[Live]] == content
  {
  }

  lemma NothingYet(start: Machine)
    requires Sound(start.disk)
    ensures Run(start, []) == start
  {
  }

  /** What a call alone on the disk replaces is what was live at first. */
  ghost predicate SoloRight(m: Machine, initial: Bytes)
    requires |m.writers| == 1
  {
    m.author.Some? ==> m.writers[0].replaced == initial && Done(m.writers[0])
  }

  lemma ActReplaced(m: Machine, i: nat, a: Action)
    requires i < |m.writers| && Sound(m.disk) && Live in m.disk.names
    ensures |Act(m, i, a).writers| == |m.writers|
    ensures Act(m, i, a).writers[i].replaced
         == if Replaces(m, Turn(i, a)) then Content(m.disk, Live) else m.writers[i].replaced
  {
    hide Sound, Opened, Replaced, Stored, Renamed, Unlinked;
  }

  lemma TakeKeepsSolo(m: Machine, t: Turn, initial: Bytes)
    requires |m.writers| == 1 && Kept(m, initial) && SoloRight(m, initial)
    ensures |Take(m, t).writers| == 1 && SoloRight(Take(m, t), initial)
  {
    hide Act, TempRight, Apart, LockHeld, Sound;
    if t.who == 0 {
      ActReplaced(m, 0, t.act);
      ActAuthor(m, 0, t.act);
      ActPhases(m, 0, t.act);
    }
  }

  lemma {:induction false} RunKeepsSolo(m: Machine, turns: seq<Turn>, initial: Bytes)
    requires |m.writers| == 1 && Kept(m, initial) && SoloRight(m, initial)
    ensures |Run(m, turns).writers| == 1 && SoloRight(Run(m, turns), initial)
    decreases |turns|
  {
    hide Take, LiveWhole, LockHeld, Apart, TempRight, Sound, SoloRight;
    if turns != [] {
      TakeKeeps(m, turns[0], initial);
      TakeKeepsSolo(m, turns[0], initial);
      RunKeepsSolo(Take(m, turns[0]), turns[1..], initial);
    }
  }

  /** Without a live file a call raises before it touches anything. */
  ghost predicate Barred(m: Machine, d: Disk) {
    && m.disk == d && |m.writers| == 1
    && var phase := m.writers[0].phase;
    phase.Idle? || phase.Entered? || phase == Leaving(false) || phase == Gone(false) || phase.Crashed?
  }

  lemma TakeStaysBarred(m: Machine, t: Turn, d: Disk)
    requires Sound(d) && Live !in d.names && Barred(m, d)
    ensures Barred(Take(m, t), d)
  {
    hide Sound, Opened, Replaced, Stored, Renamed, Unlinked, WrittenAt;
  }

  lemma {:induction false} RunStaysBarred(m: Machine, turns: seq<Turn>, d: Disk)
    requires Sound(d) && Live !in d.names && m.disk == d && Barred(m, d)
    ensures Barred(Run(m, turns), d)
    decreases |turns|
  {
    hide Take, Barred, Sound;
    if turns != [] {
      TakeStaysBarred(m, turns[0], d);
      assert Take(m, turns[0]).disk == d by {
        BarredDisk(Take(m, turns[0]), d);
      }
      RunStaysBarred(Take(m, turns[0]), turns[1..], d);
    }
  }

  lemma BarredDisk(m: Machine, d: Disk)
    requires Barred(m, d)
    ensures m.disk == d
  {
  }

  lemma SoloOutcome(d: Disk, kind: Kind, content: Bytes, tag: string, turns: seq<Turn>, ok: bool)
    requires Sound(d)
    requires var m := Run(Start(d, kind, content, tag), turns); |m.writers| == 1 && m.writers[0].phase == Leaving(ok)
    ensures var m := Run(Start(d, kind, content, tag), turns);
      Outcome(d, m.disk, content, tag, if ok then Some(|content|) else None)
    ensures var m := Run(Start(d, kind, content, tag), turns);
      Live in d.names ==>
        Live in m.disk.names && Content(m.disk, Live) == if m.author.None? then Content(d, Live) else content
  {
    hide Run;
    var start := Start(d, kind, content, tag);
    if Live !in d.names {
      RunStaysBarred(start, turns, d);
    } else {
      LiveAlwaysWhole(start, turns);
      RunKeepsCalls(start, turns);
      FreshKept(start);
      RunKeepsSolo(start, turns, Content(d, Live));
      if ok {
        BackupOfSuccess(start, turns, 0);
      }
    }
  }

  /** The only writer takes one more step. */
  lemma Follow(start: Machine, turns: seq<Turn>, act: Action) returns (m: Machine, longer: seq<Turn>)
    requires Sound(start.disk) && |Run(start, turns).writers| == 1
    ensures longer == turns + [Turn(0, act)]
    ensures m == Run(start, longer) == Act(Run(start, turns), 0, act)
    ensures Sound(m.disk) && |m.writers| == 1
    ensures m.author == if Replaces(Run(start, turns), Turn(0, act)) then Some(0) else Run(start, turns).author
  {
    hide Act, Sound;
    ActAuthor(Run(start, turns), 0, act);
    longer := turns + [Turn(0, act)];
    RunOn(start, turns, Turn(0, act));
    m := Run(start, longer);
    ActMoves(Run(start, turns), 0, act);
  }

  class Host {
    var names: map<Path, nat>
    var data: seq<Bytes>
    var locked: bool

    ghost function Now(): Disk
      reads this
    {
      Disk(names, data)
    }

    method OpenTruncated(p: Path) returns (inode: nat)
      requires Sound(Now())
      modifies this`names, this`data
      ensures Now() == Opened(old(Now()), p) && Sound(Now())
      ensures p in names && inode == names[p] < |data| && data[inode] == []
      ensures forall q :: q in names <==> q in old(names) || q == p
    {
      OpeningFrames(Now(), p);
      if p in names {
        data := data[names[p] := []];
      } else {
        names, data := names[p := |data|], data + [[]];
      }
      inode := names[p];
    }

    method Write(inode: nat, offset: nat, chunk: Bytes)
      requires inode < |data|
      modifies this`data
      ensures Now() == Stored(old(Now()), inode, offset, chunk)
    {
      data := data[inode := WrittenAt(data[inode], offset, chunk)];
    }

    /** The disk is where the steps taken so far put it, with the call in this phase. */
    ghost predicate At(start: Machine, turns: seq<Turn>, call: Writer, phase: Phase)
      reads this
    {
      && Sound(start.disk) && Sound(Now())
      && var m := Run(start, turns);
      m.disk == Now() && |m.writers| == 1 && SameCall(m.writers[0], call) && m.writers[0].phase == phase
    }

    method CopyToBackup(call: Writer, luck: Luck, ghost start: Machine, ghost before: seq<Turn>)
      returns (ok: bool, ghost turns: seq<Turn>)
      requires At(start, before, call, Entered)
      modifies this`names, this`data
      ensures At(start, turns, call, if ok then Saved else Leaving(false))
      ensures ok == (Live in old(names) && !luck.copyFault) && (Live in old(names) ==> Live in names)
      ensures Tmp(call.tag) in names <==> Tmp(call.tag) in old(names)
      ensures Run(start, turns).author == Run(start, before).author
    {
      hide Run, Sound, Opened, WrittenAt;
      ghost var m;
      m, turns := Follow(start, before, Backup(luck.copied, luck.copyFault));
      if Live !in names {
        return false, turns;
      }
      SoundAt(Now(), Live);
      var live := data[names[Live]];
      var bak := OpenTruncated(Bak(call.tag));
      Write(bak, 0, live[..Min(luck.copied, |live|)]);
      ok := !luck.copyFault;
    }

    /** Removes the temp name and gives up. */
    method GiveUp(call: Writer, ghost start: Machine, ghost before: seq<Turn>) returns (ghost turns: seq<Turn>)
      requires At(start, before, call, Doomed)
      modifies this`names
      ensures At(start, turns, call, Leaving(false)) && Tmp(call.tag) !in names
      ensures Run(start, turns).author == Run(start, before).author
    {
      hide Run, Sound;
      ghost var m;
      m, turns := Follow(start, before, Unlink);
      names := names - {Tmp(call.tag)};
    }

    method WriteTemp(call: Writer, luck: Luck, ghost start: Machine, ghost before: seq<Turn>)
      returns (ok: bool, ghost turns: seq<Turn>)
      requires At(start, before, call, Saved)
      modifies this`names, this`data
      ensures At(start, turns, call, if ok then Written else Leaving(false))
      ensures ok == (!luck.openFault && !luck.closeFault) && (Tmp(call.tag) in names <==> ok)
      ensures ok ==> Tmp(call.tag) in names && names[Tmp(call.tag)] < |data|
      ensures ok ==> data[names[Tmp(call.tag)]] == call.content[..Min(Sum(luck.chunks), |call.content|)]
      ensures Run(start, turns).author == Run(start, before).author
    {
      hide Run, Sound, Opened, WrittenAt;
      ghost var m;
      m, turns := Follow(start, before, Open(luck.openFault));
      if luck.openFault {
        turns := GiveUp(call, start, turns);
        return false, turns;
      }
      var tmp := OpenTruncated(Tmp(call.tag));
      var offset: nat := 0;
      assert luck.chunks[..0] == [];
      for k := 0 to |luck.chunks|
        invariant At(start, turns, call, Writing(tmp, offset)) && tmp < |data| && offset <= |call.content|
        invariant Tmp(call.tag) in names && names[Tmp(call.tag)] == tmp
        invariant Run(start, turns).author == Run(start, before).author
        invariant offset == Min(Sum(luck.chunks[..k]), |call.content|) && data[tmp] == call.content[..offset]
      {
        assert luck.chunks[..k + 1][..k] == luck.chunks[..k];
        var n := Min(luck.chunks[k], |call.content| - offset);
        WriteExtends(call.content, offset, n);
        m, turns := Follow(start, turns, Store(luck.chunks[k]));
        Write(tmp, offset, call.content[offset..offset + n]);
        offset := offset + n;
      }
      assert luck.chunks[..|luck.chunks|] == luck.chunks;
      m, turns := Follow(start, turns, Close(luck.closeFault));
      if luck.closeFault {
        turns := GiveUp(call, start, turns);
      }
      ok := !luck.closeFault;
    }

    /** The size check, the rename and the second size check. */
    method CheckAndRename(call: Writer, luck: Luck, ghost start: Machine, ghost before: seq<Turn>)
      returns (ok: bool, ghost turns: seq<Turn>)
      requires At(start, before, call, Written)
      modifies this`names
      ensures At(start, turns, call, Leaving(ok))
      ensures Tmp(call.tag) in old(names) && old(names)[Tmp(call.tag)] < |data| ==>
        ok == (!luck.statFault && |data[old(names)[Tmp(call.tag)]]| == |call.content|
               && luck.landing == Lands && !luck.finalFault)
      ensures Tmp(call.tag) in old(names) && old(names)[Tmp(call.tag)] < |data| ==>
        (Tmp(call.tag) in names <==>
           if luck.statFault then call.kind.Local?
           else |data[old(names)[Tmp(call.tag)]]| == |call.content| && luck.landing.Fails?)
      ensures Tmp(call.tag) in old(names) && old(names)[Tmp(call.tag)] < |data| ==>
        Run(start, turns).author
          == if !luck.statFault && |data[old(names)[Tmp(call.tag)]]| == |call.content| && !luck.landing.Fails?
             then Some(0) else Run(start, before).author
    {
      hide Run, Sound;
      ghost var m;
      m, turns := Follow(start, before, Stat(luck.statFault));
      if luck.statFault || Tmp(call.tag) !in names {
        if call.kind.Remote? {
          turns := GiveUp(call, start, turns);
        }
        return false, turns;
      }
      SoundAt(Now(), Tmp(call.tag));
      if |data[names[Tmp(call.tag)]]| != |call.content| {
        turns := GiveUp(call, start, turns);
        return false, turns;
      }
      m, turns := Follow(start, turns, Rename(luck.landing));
      if luck.landing.Fails? {
        return false, turns;
      }
      names := (names - {Tmp(call.tag)})[Live := names[Tmp(call.tag)]];
      if luck.landing.LandsUnreported? {
        return false, turns;
      }
      m, turns := Follow(start, turns, Verify(luck.finalFault));
      ok := !luck.finalFault && |data[names[Live]]| == |call.content|;
    }

    /** Steps 1 to 5 of either variant, under whatever lock the caller holds;
        Python's exceptions are `false`. */
    method Swap(call: Writer, luck: Luck, ghost start: Machine, ghost before: seq<Turn>)
      returns (ok: bool, ghost turns: seq<Turn>)
      requires At(start, before, call, Entered) && (call.kind.Local? ==> locked)
      modifies this`names, this`data
      ensures At(start, turns, call, Leaving(ok))
      ensures ok == (Live in old(names) && Lucky(luck, |call.content|))
      ensures Live in old(names) && !luck.copyFault ==>
        (Tmp(call.tag) in names <==> LeavesTemp(luck, call.kind, |call.content|))
      ensures Live !in old(names) || luck.copyFault ==> (Tmp(call.tag) in names <==> Tmp(call.tag) in old(names))
      ensures Run(start, turns).author
           == if Live in old(names) && Renames(luck, |call.content|) then Some(0) else Run(start, before).author
    {
      hide At, Sum;
      ok, turns := CopyToBackup(call, luck, start, before);
      if ok {
        ok, turns := WriteTemp(call, luck, start, turns);
        if ok {
          ok, turns := CheckAndRename(call, luck, start, turns);
        }
      }
    }

    /** `atomic_write_conf_local`. */
    method AtomicWriteLocal(content: Bytes, tag: string, luck: Luck) returns (written: Option<nat>, ghost turns: seq<Turn>)
      requires Sound(Now()) && !locked
      modifies this
      ensures !locked && Outcome(old(Now()), Now(), content, tag, written)
      ensures At(Start(old(Now()), Local, content, tag), turns, Call(Local, content, tag), Gone(written.Some?))
      ensures Live in old(names) && !luck.copyFault ==> (Tmp(tag) in names <==> LeavesTemp(luck, Local, |content|))
      ensures Live in old(names) ==> Live in names
      ensures Live in old(names) && Sound(Now()) ==>
        Content(Now(), Live) == if Renames(luck, |content|) then content else Content(old(Now()), Live)
      ensures written == Some(|content|) <==> Live in old(names) && Lucky(luck, |content|)
      ensures written.Some? ==> Live in names && names[Live] < |data| && data[names[Live]] == content
    {
      hide Run, Sound, Outcome, Lucky, LeavesTemp, Renames;
      var call := Call(Local, content, tag);
      ghost var start, m := Start(Now(), Local, content, tag), Start(Now(), Local, content, tag);
      NothingYet(start);
      m, turns := Follow(start, [], Enter);
      locked := true;
      var ok;
      ok, turns := Swap(call, luck, start, turns);
      SoloOutcome(start.disk, Local, content, tag, turns, ok);
      m, turns := Follow(start, turns, Leave);
      locked := false;
      written := if ok then Some(|content|) else None;
      if ok {
        SuccessIsLive(start.disk, Now(), content, tag, written);
      }
    }

    /** `atomic_write_conf_remote`. */
    method AtomicWriteRemote(content: Bytes, tag: string, luck: Luck) returns (written: Option<nat>, ghost turns: seq<Turn>)
      requires Sound(Now())
      modifies this`names, this`data
      ensures Outcome(old(Now()), Now(), content, tag, written)
      ensures At(Start(old(Now()), Remote, content, tag), turns, Call(Remote, content, tag), Gone(written.Some?))
      ensures Live in old(names) && !luck.copyFault ==> (Tmp(tag) in names <==> LeavesTemp(luck, Remote, |content|))
      ensures Live in old(names) ==> Live in names
      ensures Live in old(names) && Sound(Now()) ==>
        Content(Now(), Live) == if Renames(luck, |content|) then content else Content(old(Now()), Live)
      ensures written == Some(|content|) <==> Live in old(names) && Lucky(luck, |content|)
      ensures written.Some? ==> Live in names && names[Live] < |data| && data[names[Live]] == content
    {
      hide Run, Sound, Outcome, Lucky, LeavesTemp, Renames;
      var call := Call(Remote, content, tag);
      ghost var start, m := Start(Now(), Remote, content, tag), Start(Now(), Remote, content, tag);
      NothingYet(start);
      m, turns := Follow(start, [], Enter);
      var ok;
      ok, turns := Swap(call, luck, start, turns);
      SoloOutcome(start.disk, Remote, content, tag, turns, ok);
      m, turns := Follow(start, turns, Leave);
      written := if ok then Some(|content|) else None;
      if ok {
        SuccessIsLive(start.disk, Now(), content, tag, written);
      }
    }
  }
}
