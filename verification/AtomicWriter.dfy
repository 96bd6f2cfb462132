/**
 The writers of rw-eap.conf (host/safe_write_rw_eap.py) as interleaved steps on
 one file system: short writes, faults and crashes at any point.
 */
module AtomicWriter {
  import opened Chars
  import opened Options

  type Bytes = seq<bv8>

  // ---------- The file system ----------

  /** The live file, and the temp and backup names a call builds from its label and second. */
  datatype Path = Live | Tmp(tag: string) | Bak(tag: string)

  /** Names are bound to inodes; an open file stays bound to its inode across renames. */
  datatype Disk = Disk(names: map<Path, nat>, data: seq<Bytes>)

  /** Every name has an inode of its own. */
  ghost predicate Sound(d: Disk) {
    && (forall p :: p in d.names ==> d.names[p] < |d.data|)
    && (forall p, q :: p in d.names && q in d.names && d.names[p] == d.names[q] ==> p == q)
  }

  ghost function Content(d: Disk, p: Path): Bytes
    requires Sound(d) && p in d.names
  {
    d.data[d.names[p]]
  }

  /** Opening for writing truncates the file or creates it. */
  ghost function Opened(d: Disk, p: Path): Disk
    requires Sound(d)
  {
    if p in d.names then d.(data := d.data[d.names[p] := []])
    else Disk(d.names[p := |d.data|], d.data + [[]])
  }

  /** `chunk` written at `offset`, over what is there; a gap reads as zeros. */
  function WrittenAt(bytes: Bytes, offset: nat, chunk: Bytes): Bytes {
    if chunk == [] then bytes
    else
      var padded := bytes + seq(if offset > |bytes| then offset - |bytes| else 0, _ => 0 as bv8);
      padded[..offset] + chunk + (if offset + |chunk| < |padded| then padded[offset + |chunk|..] else [])
  }

  /** What the file holds after the write, byte by byte. */
  lemma WrittenByte(bytes: Bytes, offset: nat, chunk: Bytes, i: nat)
    requires chunk != [] && i < |WrittenAt(bytes, offset, chunk)|
    ensures |WrittenAt(bytes, offset, chunk)| == if offset + |chunk| < |bytes| then |bytes| else offset + |chunk|
    ensures WrittenAt(bytes, offset, chunk)[i]
         == if offset <= i < offset + |chunk| then chunk[i - offset] else if i < |bytes| then bytes[i] else 0
  {
  }

  function Stored(d: Disk, inode: nat, offset: nat, chunk: Bytes): Disk
    requires inode < |d.data|
  {
    d.(data := d.data[inode := WrittenAt(d.data[inode], offset, chunk)])
  }

  function Unlinked(d: Disk, p: Path): Disk {
    d.(names := d.names - {p})
  }

  function Renamed(d: Disk, p: Path, q: Path): Disk
    requires p in d.names && p != q
  {
    d.(names := (d.names - {p})[q := d.names[p]])
  }

  /** Path `p` has the same inode with the same bytes, or is missing, in both. */
  ghost predicate Same(d: Disk, e: Disk, p: Path) {
    && (p in d.names <==> p in e.names)
    && (p in d.names ==>
          && d.names[p] == e.names[p]
          && d.names[p] < |d.data| && d.names[p] < |e.data|
          && d.data[d.names[p]] == e.data[d.names[p]])
  }

  lemma OpeningFrames(d: Disk, p: Path)
    requires Sound(d)
    ensures Sound(Opened(d, p)) && p in Opened(d, p).names && Content(Opened(d, p), p) == []
    ensures forall q :: q != p ==> Same(d, Opened(d, p), q)
  {
    if p in d.names {
      TruncatingFrames(d, p);
    } else {
      CreatingFrames(d, p);
    }
  }

  lemma TruncatingFrames(d: Disk, p: Path)
    requires Sound(d) && p in d.names
    ensures Sound(Opened(d, p)) && p in Opened(d, p).names && Content(Opened(d, p), p) == []
    ensures forall q :: q != p ==> Same(d, Opened(d, p), q)
  {
    assert Opened(d, p) == d.(data := d.data[d.names[p] := []]);
  }

  lemma CreatingFrames(d: Disk, p: Path)
    requires Sound(d) && p !in d.names
    ensures Sound(Opened(d, p)) && p in Opened(d, p).names && Content(Opened(d, p), p) == []
    ensures forall q :: q != p ==> Same(d, Opened(d, p), q)
  {
    assert Opened(d, p) == Disk(d.names[p := |d.data|], d.data + [[]]);
  }

  lemma StoringFrames(d: Disk, p: Path, offset: nat, chunk: Bytes)
    requires Sound(d) && p in d.names
    ensures Sound(Stored(d, d.names[p], offset, chunk))
    ensures Content(Stored(d, d.names[p], offset, chunk), p) == WrittenAt(Content(d, p), offset, chunk)
    ensures forall q :: q != p ==> Same(d, Stored(d, d.names[p], offset, chunk), q)
  {
  }

  lemma RenamingFrames(d: Disk, p: Path, q: Path)
    requires Sound(d) && p in d.names && p != q
    ensures Sound(Renamed(d, p, q)) && q in Renamed(d, p, q).names && p !in Renamed(d, p, q).names
    ensures Content(Renamed(d, p, q), q) == Content(d, p)
    ensures forall o :: o != p && o != q ==> Same(d, Renamed(d, p, q), o)
  {
  }

  /** A file replaced by `bytes`: opened for writing and filled. */
  ghost function Replaced(d: Disk, p: Path, bytes: Bytes): Disk
    requires Sound(d)
  {
    var e := Opened(d, p);
    if p in e.names && e.names[p] < |e.data| then Stored(e, e.names[p], 0, bytes) else e
  }

  lemma ReplacingFrames(d: Disk, p: Path, bytes: Bytes)
    requires Sound(d)
    ensures var e := Replaced(d, p, bytes);
      && Sound(e) && p in e.names && Content(e, p) == bytes
      && forall q :: q != p ==> Same(d, e, q)
  {
    OpeningFrames(d, p);
    StoringFrames(Opened(d, p), p, 0, bytes);
  }

  // ---------- Writers ----------

  datatype Kind = Local | Remote

  datatype Phase =
    | Idle
    | Entered
    | Saved
    | Writing(inode: nat, offset: nat)
    | Written
    | Checked
    | Swapped
    | Doomed
    | Leaving(ok: bool)
    | Gone(ok: bool)
    | Crashed

  /** A call: its kind, bytes and name tag; and how far it is. `stored` counts the
      bytes its backup copy stored, `replaced` is the live content its rename replaced. */
  datatype Writer = Writer(kind: Kind, content: Bytes, tag: string, phase: Phase, stored: nat, replaced: Bytes)

  /** `author` is the last writer whose rename landed. */
  datatype Machine = Machine(disk: Disk, lock: Option<nat>, writers: seq<Writer>, author: Option<nat>)

  /** How a rename can end: the remote one may land and still be reported as failed. */
  datatype Landing = Lands | Fails | LandsUnreported

  datatype Action =
    | Enter
    | Backup(count: nat, fault: bool)
    | Open(fault: bool)
    | Store(count: nat)
    | Close(fault: bool)
    | Stat(fault: bool)
    | Unlink
    | Rename(landing: Landing)
    | Verify(fault: bool)
    | Leave
    | Crash

  function Min(a: nat, b: nat): nat {
    if a < b then a else b
  }

  /** The name suffix of a call's temp and backup files. */
  function Tag(callerLabel: string, second: nat): string {
    callerLabel + "-" + Decimal(second)
  }

  /** Two calls share their names exactly when they share caller and second. */
  lemma TagInjective(a: string, s: nat, b: string, t: nat)
    ensures Tag(a, s) == Tag(b, t) <==> a == b && s == t
  {
    hide Decimal;
    if Tag(a, s) == Tag(b, t) {
      LastHyphen(a, Decimal(s), b, Decimal(t));
      DecimalInjective(s, t);
    }
  }

  /** A text after whose last hyphen come digits only splits in one way. */
  lemma LastHyphen(a: string, d: string, b: string, e: string)
    requires a + "-" + d == b + "-" + e
    requires (forall i :: 0 <= i < |d| ==> '0' <= d[i] <= '9') && forall i :: 0 <= i < |e| ==> '0' <= e[i] <= '9'
    ensures a == b && d == e
  {
    var tag := a + "-" + d;
    assert tag[|a|] == '-' && tag[|b|] == '-';
    assert forall i :: |a| < i < |tag| ==> tag[i] == d[i - |a| - 1];
    assert forall i :: |b| < i < |tag| ==> tag[i] == e[i - |b| - 1];
    assert |a| == |b|;
    assert a == tag[..|a|] == b;
    assert d == tag[|a| + 1..] == e;
  }

  function Moved(m: Machine, i: nat, phase: Phase): Machine
    requires i < |m.writers|
  {
    m.(writers := m.writers[i := m.writers[i].(phase := phase)])
  }

  /** The lock goes with its holder. */
  function Released(m: Machine, i: nat): Machine {
    if m.lock == Some(i) then m.(lock := None) else m
  }

  ghost function Entering(m: Machine, i: nat): Machine
    requires i < |m.writers|
  {
    if m.writers[i].kind.Remote? then Moved(m, i, Entered)
    else if m.lock.None? then Moved(m, i, Entered).(lock := Some(i))
    else m
  }

  /** The live bytes are copied; a fault raises before anything else is touched. */
  ghost function BackingUp(m: Machine, i: nat, count: nat, fault: bool): Machine
    requires i < |m.writers| && Sound(m.disk)
  {
    var w := m.writers[i];
    if Live !in m.disk.names then Moved(m, i, Leaving(false))
    else
      var live := Content(m.disk, Live);
      var n := Min(count, |live|);
      var copied := m.(disk := Replaced(m.disk, Bak(w.tag), live[..n]));
      if fault then Moved(copied, i, Leaving(false))
      else copied.(writers := m.writers[i := w.(phase := Saved, stored := n)])
  }

  ghost function Opening(m: Machine, i: nat, fault: bool): Machine
    requires i < |m.writers| && Sound(m.disk)
  {
    var p := Tmp(m.writers[i].tag);
    var d := Opened(m.disk, p);
    if fault || p !in d.names then Moved(m, i, Doomed)
    else Moved(m.(disk := d), i, Writing(d.names[p], 0))
  }

  /** The next bytes reach the open file, as many as the write manages. */
  function Storing(m: Machine, i: nat, count: nat): Machine
    requires i < |m.writers| && m.writers[i].phase.Writing?
  {
    var w := m.writers[i];
    if w.phase.inode < |m.disk.data| && w.phase.offset <= |w.content| then
      var n := Min(count, |w.content| - w.phase.offset);
      Moved(m.(disk := Stored(m.disk, w.phase.inode, w.phase.offset, w.content[w.phase.offset..w.phase.offset + n])),
            i, Writing(w.phase.inode, w.phase.offset + n))
    else m
  }

  /** The size check. A missing temp file raises: the remote variant removes the name first. */
  ghost function Statting(m: Machine, i: nat, fault: bool): Machine
    requires i < |m.writers| && Sound(m.disk)
  {
    var w := m.writers[i];
    if fault || Tmp(w.tag) !in m.disk.names then Moved(m, i, if w.kind.Local? then Leaving(false) else Doomed)
    else if |Content(m.disk, Tmp(w.tag))| == |w.content| then Moved(m, i, Checked)
    else Moved(m, i, Doomed)
  }

  ghost function Renaming(m: Machine, i: nat, landing: Landing): Machine
    requires i < |m.writers| && Sound(m.disk)
  {
    var w := m.writers[i];
    if landing.Fails? || Tmp(w.tag) !in m.disk.names then Moved(m, i, Leaving(false))
    else
      var before := if Live in m.disk.names then Content(m.disk, Live) else [];
      var after := if landing.Lands? then Swapped else Leaving(false);
      m.(disk := Renamed(m.disk, Tmp(w.tag), Live), author := Some(i),
         writers := m.writers[i := w.(phase := after, replaced := before)])
  }

  ghost function Verifying(m: Machine, i: nat, fault: bool): Machine
    requires i < |m.writers| && Sound(m.disk)
  {
    var fits := Live in m.disk.names && |Content(m.disk, Live)| == |m.writers[i].content|;
    Moved(m, i, Leaving(!fault && fits))
  }

  /** Writer `i` takes step `a` if it is at that step; otherwise nothing happens. */
  ghost function Act(m: Machine, i: nat, a: Action): Machine
    requires i < |m.writers| && Sound(m.disk)
  {
    var w := m.writers[i];
    match (w.phase, a)
    case (Idle, Enter) => Entering(m, i)
    case (Entered, Backup(n, fault)) => BackingUp(m, i, n, fault)
    case (Saved, Open(fault)) => Opening(m, i, fault)
    case (Writing(_, _), Store(n)) => Storing(m, i, n)
    case (Writing(_, _), Close(fault)) => Moved(m, i, if fault then Doomed else Written)
    case (Written, Stat(fault)) => Statting(m, i, fault)
    case (Doomed, Unlink) => Moved(m.(disk := Unlinked(m.disk, Tmp(w.tag))), i, Leaving(false))
    case (Checked, Rename(landing)) => Renaming(m, i, landing)
    case (Swapped, Verify(fault)) => Verifying(m, i, fault)
    case (Leaving(ok), Leave) => Released(Moved(m, i, Gone(ok)), i)
    case (Gone(_), Crash) => m
    case (_, Crash) => Released(Moved(m, i, Crashed), i)
    case _ => m
  }

  // ---------- What every step keeps ----------

  /** Between entering and leaving. */
  predicate Active(w: Writer) {
    !w.phase.Idle? && !w.phase.Gone? && !w.phase.Crashed?
  }

  /** No two calls share a temp name, unless the lock keeps them apart. */
  predicate Apart(ws: seq<Writer>) {
    forall i, j :: 0 <= i < j < |ws| && ws[i].tag == ws[j].tag ==> ws[i].kind.Local? && ws[j].kind.Local?
  }

  predicate SameCall(v: Writer, w: Writer) {
    v.kind == w.kind && v.content == w.content && v.tag == w.tag
  }

  ghost predicate LockHeld(m: Machine) {
    && (m.lock.Some? ==> m.lock.value < |m.writers| && m.writers[m.lock.value].kind.Local?)
    && forall i :: 0 <= i < |m.writers| && m.writers[i].kind.Local? ==> (Active(m.writers[i]) <==> m.lock == Some(i))
  }

  /** The live file holds the initial content or all of the last renamer's. */
  ghost predicate LiveWhole(m: Machine, initial: Bytes)
    requires Sound(m.disk)
  {
    && Live in m.disk.names
    && (m.author.Some? ==> m.author.value < |m.writers|)
    && Content(m.disk, Live) == if m.author.None? then initial else m.writers[m.author.value].content
  }

  /** What a writer's temp file holds at its phase. */
  ghost predicate TempRight(d: Disk, w: Writer)
    requires Sound(d)
  {
    var p := Tmp(w.tag);
    match w.phase
    case Writing(inode, offset) =>
      p in d.names && d.names[p] == inode && offset <= |w.content| && Content(d, p) == w.content[..offset]
    case Written => p in d.names && Content(d, p) <= w.content
    case Checked => p in d.names && Content(d, p) == w.content
    case _ => true
  }

  ghost predicate Kept(m: Machine, initial: Bytes) {
    && Sound(m.disk) && Apart(m.writers) && LockHeld(m) && LiveWhole(m, initial)
    && forall i :: 0 <= i < |m.writers| ==> TempRight(m.disk, m.writers[i])
  }

  /** A step moves one writer on and leaves every call what it is. */
  ghost predicate OnlyMoves(m: Machine, n: Machine, i: nat) {
    && |n.writers| == |m.writers|
    && forall j :: 0 <= j < |m.writers| ==> SameCall(m.writers[j], n.writers[j]) && (j != i ==> n.writers[j] == m.writers[j])
  }

  lemma ActMoves(m: Machine, i: nat, a: Action)
    requires i < |m.writers| && Sound(m.disk)
    ensures OnlyMoves(m, Act(m, i, a), i)
  {
    hide Sound, Opened, Replaced, Stored, Renamed, Unlinked;
  }

  /** A step takes the lock only when it is free and gives it up only for its own writer. */
  lemma ActOnLock(m: Machine, i: nat, a: Action)
    requires i < |m.writers| && Sound(m.disk) && LockHeld(m)
    ensures var n := Act(m, i, a);
      && |n.writers| == |m.writers|
      && (n.lock == m.lock || (m.lock.None? && n.lock == Some(i)) || (m.lock == Some(i) && n.lock.None?))
      && (m.writers[i].kind.Local? ==> (Active(n.writers[i]) <==> n.lock == Some(i)))
      && (m.writers[i].kind.Remote? ==> n.lock == m.lock)
  {
    hide Sound, Opened, Replaced, Stored, Renamed, Unlinked;
    assert m.writers[i].kind.Local? ==> (Active(m.writers[i]) <==> m.lock == Some(i));
    hide LockHeld;
  }

  lemma ActKeepsLock(m: Machine, i: nat, a: Action)
    requires i < |m.writers| && Sound(m.disk) && LockHeld(m)
    ensures LockHeld(Act(m, i, a))
  {
    hide Sound, Act, Active;
    ActOnLock(m, i, a);
    ActMoves(m, i, a);
    assert SameCall(m.writers[i], Act(m, i, a).writers[i]);
  }

  /** The files a step of a writer with this tag can change. */
  predicate Touches(tag: string, p: Path) {
    p == Tmp(tag) || p == Bak(tag) || p == Live
  }

  lemma WriteExtends(content: Bytes, offset: nat, n: nat)
    requires offset + n <= |content|
    ensures WrittenAt(content[..offset], offset, content[offset..offset + n]) == content[..offset + n]
  {
    if n > 0 {
      assert content[..offset] + [] == content[..offset];
    }
  }

  /** What a step of writer `i` leaves behind: a sound disk, the files of calls
      with other tags as they were, its own temp file right, the live file whole. */
  ghost predicate Effect(m: Machine, n: Machine, i: nat, initial: Bytes)
    requires i < |m.writers|
  {
    && OnlyMoves(m, n, i)
    && Sound(n.disk)
    && (forall p :: !Touches(m.writers[i].tag, p) ==> Same(m.disk, n.disk, p))
    && TempRight(n.disk, n.writers[i])
    && LiveWhole(n, initial)
  }

  lemma LiveStays(m: Machine, n: Machine, i: nat, initial: Bytes)
    requires i < |m.writers| && Sound(m.disk) && LiveWhole(m, initial)
    requires OnlyMoves(m, n, i) && Sound(n.disk) && Same(m.disk, n.disk, Live) && n.author == m.author
    ensures LiveWhole(n, initial)
  {
  }

  lemma BackupEffect(m: Machine, i: nat, count: nat, fault: bool, initial: Bytes)
    requires i < |m.writers| && Sound(m.disk) && LiveWhole(m, initial)
    ensures Effect(m, BackingUp(m, i, count, fault), i, initial)
  {
    hide Opened, Replaced, LiveWhole;
    var live := if Live in m.disk.names then Content(m.disk, Live) else [];
    ReplacingFrames(m.disk, Bak(m.writers[i].tag), live[..Min(count, |live|)]);
    LiveStays(m, BackingUp(m, i, count, fault), i, initial);
  }

  lemma OpenEffect(m: Machine, i: nat, fault: bool, initial: Bytes)
    requires i < |m.writers| && Sound(m.disk) && LiveWhole(m, initial)
    ensures Effect(m, Opening(m, i, fault), i, initial)
  {
    hide Opened, LiveWhole;
    OpeningFrames(m.disk, Tmp(m.writers[i].tag));
    LiveStays(m, Opening(m, i, fault), i, initial);
  }

  lemma StoreEffect(m: Machine, i: nat, count: nat, initial: Bytes)
    requires i < |m.writers| && Sound(m.disk) && LiveWhole(m, initial)
    requires m.writers[i].phase.Writing? && TempRight(m.disk, m.writers[i])
    ensures Effect(m, Storing(m, i, count), i, initial)
  {
    hide WrittenAt, LiveWhole;
    var w := m.writers[i];
    var k := Min(count, |w.content| - w.phase.offset);
    StoringFrames(m.disk, Tmp(w.tag), w.phase.offset, w.content[w.phase.offset..w.phase.offset + k]);
    WriteExtends(w.content, w.phase.offset, k);
    LiveStays(m, Storing(m, i, count), i, initial);
  }

  lemma RenameEffect(m: Machine, i: nat, landing: Landing, initial: Bytes)
    requires i < |m.writers| && Sound(m.disk) && LiveWhole(m, initial)
    requires m.writers[i].phase.Checked? && TempRight(m.disk, m.writers[i])
    ensures Effect(m, Renaming(m, i, landing), i, initial)
  {
    hide Renamed;
    RenamingFrames(m.disk, Tmp(m.writers[i].tag), Live);
  }

  lemma UnlinkEffect(m: Machine, i: nat, initial: Bytes)
    requires i < |m.writers| && Sound(m.disk) && LiveWhole(m, initial)
    ensures Effect(m, Moved(m.(disk := Unlinked(m.disk, Tmp(m.writers[i].tag))), i, Leaving(false)), i, initial)
  {
    hide LiveWhole;
    LiveStays(m, Moved(m.(disk := Unlinked(m.disk, Tmp(m.writers[i].tag))), i, Leaving(false)), i, initial);
  }

  /** A step that leaves the disk alone. */
  lemma StillEffect(m: Machine, n: Machine, i: nat, initial: Bytes)
    requires i < |m.writers| && Sound(m.disk) && LiveWhole(m, initial)
    requires OnlyMoves(m, n, i) && n.disk == m.disk && n.author == m.author && TempRight(n.disk, n.writers[i])
    ensures Effect(m, n, i, initial)
  {
  }

  predicate Still(a: Action) {
    !a.Backup? && !a.Open? && !a.Store? && !a.Unlink? && !a.Rename?
  }

  lemma StillActs(m: Machine, i: nat, a: Action)
    requires i < |m.writers| && Sound(m.disk) && TempRight(m.disk, m.writers[i]) && Still(a)
    ensures var n := Act(m, i, a); n.disk == m.disk && n.author == m.author && TempRight(n.disk, n.writers[i])
  {
    hide Same, Sound, BackingUp, Opening, Storing, Renaming;
  }

  lemma ActEffect(m: Machine, i: nat, a: Action, initial: Bytes)
    requires i < |m.writers| && Sound(m.disk) && LiveWhole(m, initial) && TempRight(m.disk, m.writers[i])
    ensures Effect(m, Act(m, i, a), i, initial)
  {
    hide Sound, LiveWhole, TempRight, BackingUp, Opening, Storing, Statting, Renaming, Verifying, Effect, OnlyMoves;
    match (m.writers[i].phase, a)
    case (Entered, Backup(n, fault)) => BackupEffect(m, i, n, fault, initial);
    case (Saved, Open(fault)) => OpenEffect(m, i, fault, initial);
    case (Writing(_, _), Store(n)) => StoreEffect(m, i, n, initial);
    case (Doomed, Unlink) => UnlinkEffect(m, i, initial);
    case (Checked, Rename(landing)) => RenameEffect(m, i, landing, initial);
    case _ =>
      ActMoves(m, i, a);
      if Still(a) {
        StillActs(m, i, a);
      }
      StillEffect(m, Act(m, i, a), i, initial);
  }
}
