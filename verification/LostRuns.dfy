/**
 The writers of rw-eap.conf together with the reads their callers make first:
 each call writes the edit of the live file as it read it, before it may enter.
 */
module LostRuns {
  import opened AtomicWriter
  import opened AtomicRuns
  import opened LostUpdates

  type Editor = (nat, Bytes) -> Bytes

  /** Call `who` reads the live file, or some writer takes a step. */
  datatype Event = Fetch(who: nat) | Does(turn: Turn)

  /** The machine, and the calls that have read. */
  datatype Site = Site(machine: Machine, fetched: set<nat>)

  predicate CanFetch(s: Site, i: nat) {
    i < |s.machine.writers| && i !in s.fetched && s.machine.writers[i].phase.Idle? && Live in s.machine.disk.names
  }

  ghost function Happen(s: Site, edit: Editor, e: Event): (n: Site)
    requires Sound(s.machine.disk)
    ensures Sound(n.machine.disk)
  {
    match e
    case Fetch(i) => if CanFetch(s, i) then Site(Given(s.machine, i, edit(i, Content(s.machine.disk, Live))), s.fetched + {i}) else s
    case Does(t) => if t.act.Enter? && t.who !in s.fetched then s else s.(machine := Take(s.machine, t))
  }

  /** Writer `i` is to write `content`. */
  function Given(m: Machine, i: nat, content: Bytes): Machine
    requires i < |m.writers|
  {
    m.(writers := m.writers[i := m.writers[i].(content := content)])
  }

  ghost function Play(s: Site, edit: Editor, events: seq<Event>): (n: Site)
    requires Sound(s.machine.disk)
    ensures Sound(n.machine.disk)
    decreases |events|
  {
    if events == [] then s else Happen(Play(s, edit, events[..|events| - 1]), edit, events[|events| - 1])
  }

  /** The reads and landed renames of an event. */
  function Shown(s: Site, e: Event): seq<Step> {
    match e
    case Fetch(i) => if CanFetch(s, i) then [Read(i)] else []
    case Does(t) => if Replaces(s.machine, t) then [Swap(t.who)] else []
  }

  ghost function Trace(s: Site, edit: Editor, events: seq<Event>): seq<Step>
    requires Sound(s.machine.disk)
    decreases |events|
  {
    if events == [] then []
    else
      var front := events[..|events| - 1];
      Trace(s, edit, front) + Shown(Play(s, edit, front), events[|events| - 1])
  }

  // ---------- What every event keeps ----------

  /** The machine is as the protocol keeps it, and no call that is still idle has replaced the file. */
  ghost predicate Steady(m: Machine, initial: Bytes) {
    Kept(m, initial) && (m.author.Some? ==> !m.writers[m.author.value].phase.Idle?)
  }

  /** Calls that have read will write the edit of what they read; only they have entered. */
  ghost predicate Tied(s: Site, edit: Editor, seen: map<nat, Bytes>) {
    && seen.Keys == s.fetched
    && forall i :: 0 <= i < |s.machine.writers| ==>
        var w := s.machine.writers[i];
        && (i in seen ==> w.content == edit(i, seen[i]))
        && (w.phase.Idle? || w.phase.Crashed? || i in seen)
  }

  /** The trace has one read of each call that has read, and replacements only of calls past theirs. */
  ghost predicate Logs(s: Site, trace: seq<Step>) {
    && Valid(trace)
    && forall x :: x in trace ==>
        match x
        case Read(i) => i in s.fetched
        case Swap(i) => i < |s.machine.writers| && Done(s.machine.writers[i])
  }

  ghost predicate Follows(s: Site, initial: Bytes, edit: Editor, trace: seq<Step>) {
    && Steady(s.machine, initial)
    && Logs(s, trace)
    && var r := Reached(initial, edit, trace);
      Tied(s, edit, r.seen) && Content(s.machine.disk, Live) == r.live
      && forall i :: i in s.fetched ==> Read(i) in trace
  }

  lemma ReachedMore(initial: Bytes, edit: Editor, trace: seq<Step>, x: Step)
    ensures Reached(initial, edit, trace + [x]) == Then(Reached(initial, edit, trace), edit, x)
  {
    assert (trace + [x])[..|trace|] == trace;
  }

  lemma ValidMore(trace: seq<Step>, x: Step)
    requires Valid(trace) && x !in trace && (x.Swap? ==> Read(x.call) in trace)
    ensures Valid(trace + [x])
  {
    forall w | 0 <= w < |trace + [x]| && (trace + [x])[w].Swap? ensures Read((trace + [x])[w].call) in (trace + [x])[..w] {
      assert (trace + [x])[..w] == trace[..w];
    }
  }

  lemma FetchKeepsMachine(m: Machine, i: nat, content: Bytes, initial: Bytes)
    requires i < |m.writers| && m.writers[i].phase.Idle? && Steady(m, initial)
    ensures Steady(Given(m, i, content), initial)
  {
  }

  lemma FetchFollows(s: Site, initial: Bytes, edit: Editor, trace: seq<Step>, i: nat)
    requires Follows(s, initial, edit, trace) && CanFetch(s, i)
    ensures Follows(Happen(s, edit, Fetch(i)), initial, edit, trace + [Read(i)])
  {
    hide Valid, Reached, Steady, Sound;
    assert Sound(s.machine.disk) by { SteadySound(s.machine, initial); }
    FetchKeepsMachine(s.machine, i, edit(i, Content(s.machine.disk, Live)), initial);
    ReachedMore(initial, edit, trace, Read(i));
    ValidMore(trace, Read(i));
  }

  lemma SteadySound(m: Machine, initial: Bytes)
    requires Steady(m, initial)
    ensures Sound(m.disk)
  {
  }

  /** A turn leaves the live file as it is, or replaces it by all of what its call writes. */
  lemma TurnOnLive(m: Machine, t: Turn, initial: Bytes)
    requires Steady(m, initial)
    ensures var n := Take(m, t);
      && Steady(n, initial) && |n.writers| == |m.writers|
      && (forall i :: 0 <= i < |m.writers| ==> SameCall(m.writers[i], n.writers[i]) && (i != t.who ==> n.writers[i] == m.writers[i]))
      && Content(n.disk, Live) == if Replaces(m, t) then m.writers[t.who].content else Content(m.disk, Live)
  {
    hide Act, TempRight, LockHeld, Apart, Sound;
    TakeKeeps(m, t, initial);
    if t.who < |m.writers| {
      ActMoves(m, t.who, t.act);
      ActAuthor(m, t.who, t.act);
      ActPhases(m, t.who, t.act);
    }
  }

  lemma TurnFollows(s: Site, initial: Bytes, edit: Editor, trace: seq<Step>, t: Turn)
    requires Follows(s, initial, edit, trace) && (t.act.Enter? ==> t.who in s.fetched)
    ensures Follows(Happen(s, edit, Does(t)), initial, edit, trace + Shown(s, Does(t)))
  {
    hide Valid, Reached, Steady, Sound, Act;
    var m := s.machine;
    assert Sound(m.disk) by { SteadySound(m, initial); }
    TurnOnLive(m, t, initial);
    if t.who < |m.writers| {
      ActPhases(m, t.who, t.act);
      ActAuthor(m, t.who, t.act);
    }
    if Replaces(m, t) {
      ReachedMore(initial, edit, trace, Swap(t.who));
      ValidMore(trace, Swap(t.who));
    } else {
      assert trace + [] == trace;
    }
  }

  lemma {:induction false} PlayFollows(s: Site, initial: Bytes, edit: Editor, events: seq<Event>)
    requires Follows(s, initial, edit, [])
    ensures Follows(Play(s, edit, events), initial, edit, Trace(s, edit, events))
    decreases |events|
  {
    hide Follows, Happen, Shown, Sound;
    assert Sound(s.machine.disk) by { FollowsSound(s, initial, edit, []); }
    if events != [] {
      var front := events[..|events| - 1];
      PlayFollows(s, initial, edit, front);
      EventFollows(Play(s, edit, front), initial, edit, Trace(s, edit, front), events[|events| - 1]);
    }
  }

  lemma FollowsSound(s: Site, initial: Bytes, edit: Editor, trace: seq<Step>)
    requires Follows(s, initial, edit, trace)
    ensures Sound(s.machine.disk)
  {
  }

  lemma EventFollows(s: Site, initial: Bytes, edit: Editor, trace: seq<Step>, e: Event)
    requires Follows(s, initial, edit, trace)
    ensures Sound(s.machine.disk) && Follows(Happen(s, edit, e), initial, edit, trace + Shown(s, e))
  {
    hide Follows, Sound, Take;
    assert Sound(s.machine.disk) by { FollowsSound(s, initial, edit, trace); }
    assert trace + [] == trace;
    match e
    case Fetch(i) =>
      if CanFetch(s, i) {
        FetchFollows(s, initial, edit, trace, i);
      }
    case Does(t) =>
      if t.act.Enter? && t.who !in s.fetched {
        assert !Replaces(s.machine, t);
      } else {
        TurnFollows(s, initial, edit, trace, t);
      }
  }

  /**
   On every run of the writers with their callers' reads, short writes, faults and
   crashes included, the live file holds the first content with the edits of the
   chain of calls that each read the one before; and all landed edits, in the order
   of their renames, if no rename landed between a call's read and its own.
   */
  lemma LiveIsChain(m: Machine, edit: Editor, events: seq<Event>)
    requires Fresh(m) && Apart(m.writers)
    ensures var n, trace, first := Play(Site(m, {}), edit, events).machine, Trace(Site(m, {}), edit, events), Content(m.disk, Live);
      && Valid(trace) && Live in n.disk.names
      && Content(n.disk, Live) == Fold(first, edit, Chain(trace))
      && (Unovertaken(trace) ==> Content(n.disk, Live) == Fold(first, edit, Swaps(trace)))
  {
    hide Play, Trace, Unovertaken, Swaps, Valid, Reached;
    var s, first := Site(m, {}), Content(m.disk, Live);
    FreshFollows(m, edit);
    PlayFollows(s, first, edit, events);
    var trace := Trace(s, edit, events);
    FileIsChain(first, edit, trace);
    if Unovertaken(trace) {
      UnovertakenIsWhole(trace);
    }
  }

  lemma FreshFollows(m: Machine, edit: Editor)
    requires Fresh(m) && Apart(m.writers)
    ensures Follows(Site(m, {}), Content(m.disk, Live), edit, [])
  {
    FreshKept(m);
  }

  // ---------- The lock does not help ----------

  /** The turns as events. */
  function Doing(turns: seq<Turn>): seq<Event> {
    seq(|turns|, k requires 0 <= k < |turns| => Does(turns[k]))
  }

  lemma PlayOn(s: Site, edit: Editor, events: seq<Event>, e: Event)
    requires Sound(s.machine.disk)
    ensures Play(s, edit, events + [e]) == Happen(Play(s, edit, events), edit, e)
  {
    assert (events + [e])[..|events|] == events;
  }

  /** Turns of a call that has read are the machine's own run. */
  lemma {:induction false} PlayTurns(s: Site, edit: Editor, events: seq<Event>, turns: seq<Turn>, v: nat)
    requires Sound(s.machine.disk) && v in Play(s, edit, events).fetched && forall t :: t in turns ==> t.who == v
    ensures var before := Play(s, edit, events);
      Play(s, edit, events + Doing(turns)) == Site(Run(before.machine, turns), before.fetched)
    decreases |turns|
  {
    hide Play, Take, Run, Sound;
    if turns == [] {
      assert events + Doing(turns) == events;
      RunNothing(Play(s, edit, events).machine);
    } else {
      var front, last := turns[..|turns| - 1], turns[|turns| - 1];
      assert events + Doing(turns) == events + Doing(front) + [Does(last)];
      PlayTurns(s, edit, events, front, v);
      PlayOn(s, edit, events + Doing(front), Does(last));
      assert turns == front + [last];
      RunOn(Play(s, edit, events).machine, front, last);
    }
  }

  lemma BothRead(m: Machine, edit: Editor, i: nat, j: nat) returns (m1: Machine)
    requires Fresh(m) && Apart(m.writers) && i < |m.writers| && j < |m.writers| && i != j
    ensures Play(Site(m, {}), edit, [Fetch(i), Fetch(j)]) == Site(m1, {i, j})
    ensures |m1.writers| == |m.writers| && m1.lock.None? && m1.disk == m.disk
    ensures forall k :: 0 <= k < |m1.writers| ==> m1.writers[k].phase.Idle?
    ensures Kept(m1, Content(m.disk, Live)) && m1.writers[j].content == edit(j, Content(m.disk, Live))
  {
    hide Play, Sound;
    var first := Content(m.disk, Live);
    FreshKept(m);
    PlayOn(Site(m, {}), edit, [], Fetch(i));
    PlayOn(Site(m, {}), edit, [Fetch(i)], Fetch(j));
    assert [] + [Fetch(i)] == [Fetch(i)] && [Fetch(i)] + [Fetch(j)] == [Fetch(i), Fetch(j)];
    PlayNothing(Site(m, {}), edit);
    FetchKeepsMachine(m, i, edit(i, first), first);
    FetchKeepsMachine(Given(m, i, edit(i, first)), j, edit(j, first), first);
    m1 := Given(Given(m, i, edit(i, first)), j, edit(j, first));
    assert {} + {i} + {j} == {i, j};
  }

  lemma PlayNothing(s: Site, edit: Editor)
    requires Sound(s.machine.disk)
    ensures Play(s, edit, []) == s
  {
  }

  lemma LockIsFree(m: Machine, initial: Bytes)
    requires Kept(m, initial) && forall k :: 0 <= k < |m.writers| ==> !Active(m.writers[k])
    ensures m.lock.None?
  {
  }

  /**
   Whatever the edits, and although the calls may all take the lock: two calls
   that both read first and then run one after the other both report success, and
   the live file holds only the second one's edit of the first content.
   */
  lemma BothSucceedOneIsLost(m: Machine, edit: Editor, i: nat, j: nat) returns (events: seq<Event>)
    requires Fresh(m) && Apart(m.writers) && i < |m.writers| && j < |m.writers| && i != j
    ensures var n := Play(Site(m, {}), edit, events).machine;
      && |n.writers| == |m.writers| && n.writers[i].phase == Gone(true) && n.writers[j].phase == Gone(true)
      && Live in n.disk.names && Content(n.disk, Live) == edit(j, Content(m.disk, Live))
  {
    hide Run, Play, Sound, Kept;
    var s, first := Site(m, {}), Content(m.disk, Live);
    var fetches := [Fetch(i), Fetch(j)];
    var m1 := BothRead(m, edit, i, j);
    var a := RunWholeCall(m1, i, first);
    var m2 := Run(m1, a);
    LockIsFree(m2, first);
    var b := RunWholeCall(m2, j, first);
    PlayTurns(s, edit, fetches, a, i);
    PlayTurns(s, edit, fetches + Doing(a), b, j);
    events := fetches + Doing(a) + Doing(b);
    LiveIsThere(Run(m2, b), first);
  }

  lemma LiveIsThere(m: Machine, initial: Bytes)
    requires Kept(m, initial)
    ensures Sound(m.disk) && Live in m.disk.names
  {
  }
}
