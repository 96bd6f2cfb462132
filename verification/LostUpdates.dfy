/**
 Callers read rw-eap.conf, edit what they read, and only then ask for the lock
 under which the file is replaced. What the file holds in the end for every
 order of the reads and the replacements, and when nothing is lost.
 */
module LostUpdates {
  /** Call `call` reads the file, or replaces it by the edit of what it read. */
  datatype Step = Read(call: nat) | Swap(call: nat)

  datatype State<T> = State(live: T, seen: map<nat, T>)

  function Then<T>(s: State<T>, edit: (nat, T) -> T, step: Step): State<T> {
    match step
    case Read(i) => s.(seen := s.seen[i := s.live])
    case Swap(i) => if i in s.seen then s.(live := edit(i, s.seen[i])) else s
  }

  /** The file and what every call has read, after the steps. */
  function Reached<T>(initial: T, edit: (nat, T) -> T, steps: seq<Step>): State<T>
    decreases |steps|
  {
    if steps == [] then State(initial, map[])
    else Then(Reached(initial, edit, steps[..|steps| - 1]), edit, steps[|steps| - 1])
  }

  /** The edits of the listed calls, one after the other. */
  function Fold<T>(initial: T, edit: (nat, T) -> T, calls: seq<nat>): T
    decreases |calls|
  {
    if calls == [] then initial
    else edit(calls[|calls| - 1], Fold(initial, edit, calls[..|calls| - 1]))
  }

  /** The calls that replaced the file, in their order. */
  function Swaps(steps: seq<Step>): seq<nat>
    decreases |steps|
  {
    if steps == [] then []
    else
      var before := Swaps(steps[..|steps| - 1]);
      if steps[|steps| - 1].Swap? then before + [steps[|steps| - 1].call] else before
  }

  /** A call reads once and then replaces the file once, or fails before that. */
  ghost predicate Valid(steps: seq<Step>) {
    && (forall j, k :: 0 <= j < k < |steps| ==> steps[j] != steps[k])
    && (forall w :: 0 <= w < |steps| && steps[w].Swap? ==> Read(steps[w].call) in steps[..w])
  }

  /** No other call replaces the file between a call's read and its own replacement. */
  ghost predicate Unovertaken(steps: seq<Step>) {
    forall r, m, w :: 0 <= r < m < w < |steps| && steps[r].Read? && steps[w] == Swap(steps[r].call) ==> !steps[m].Swap?
  }

  function Logged(call: nat, log: seq<nat>): seq<nat> {
    log + [call]
  }

  /** The calls whose edits are in the file, in their order. */
  function Chain(steps: seq<Step>): seq<nat> {
    Reached([], Logged, steps).live
  }

  // ---------- What the file holds ----------

  lemma FoldOn<T>(initial: T, edit: (nat, T) -> T, calls: seq<nat>, call: nat)
    ensures Fold(initial, edit, Logged(call, calls)) == edit(call, Fold(initial, edit, calls))
  {
    assert Logged(call, calls)[..|calls|] == calls;
  }

  /** The state is the edits' fold of the state that only records which edits were made. */
  lemma {:induction false} StateIsFold<T>(initial: T, edit: (nat, T) -> T, steps: seq<Step>)
    ensures var s, logs := Reached(initial, edit, steps), Reached([], Logged, steps);
      && s.live == Fold(initial, edit, logs.live)
      && s.seen.Keys == logs.seen.Keys
      && forall i :: i in logs.seen ==> s.seen[i] == Fold(initial, edit, logs.seen[i])
    decreases |steps|
  {
    if steps != [] {
      var front, last := steps[..|steps| - 1], steps[|steps| - 1];
      StateIsFold(initial, edit, front);
      var logs := Reached([], Logged, front);
      if last.Swap? && last.call in logs.seen {
        FoldOn(initial, edit, logs.seen[last.call], last.call);
      }
    }
  }

  /** In every order the file holds the edits of the chain, each made on the result of the one before. */
  lemma FileIsChain<T>(initial: T, edit: (nat, T) -> T, steps: seq<Step>)
    ensures Reached(initial, edit, steps).live == Fold(initial, edit, Chain(steps))
  {
    StateIsFold(initial, edit, steps);
  }

  lemma ValidPrefix(steps: seq<Step>, n: nat)
    requires Valid(steps) && n <= |steps|
    ensures Valid(steps[..n])
  {
    forall w | 0 <= w < n && steps[..n][w].Swap? ensures Read(steps[..n][w].call) in steps[..n][..w] {
      assert steps[..n][..w] == steps[..w];
    }
  }

  lemma StepsDiffer(steps: seq<Step>, j: nat, k: nat)
    requires Valid(steps) && j < k < |steps|
    ensures steps[j] != steps[k]
  {
  }

  lemma ReachedOn<T>(initial: T, edit: (nat, T) -> T, steps: seq<Step>)
    requires steps != []
    ensures Reached(initial, edit, steps)
         == Then(Reached(initial, edit, steps[..|steps| - 1]), edit, steps[|steps| - 1])
  {
  }

  lemma SwapsOn(steps: seq<Step>)
    requires steps != []
    ensures |Swaps(steps)| == |Swaps(steps[..|steps| - 1])| + if steps[|steps| - 1].Swap? then 1 else 0
  {
  }

  /** What a call has read stays what the file held then. */
  lemma {:induction false} SeenIsRead<T>(initial: T, edit: (nat, T) -> T, steps: seq<Step>, r: nat)
    requires Valid(steps) && r < |steps| && steps[r].Read?
    ensures var s := Reached(initial, edit, steps);
      steps[r].call in s.seen && s.seen[steps[r].call] == Reached(initial, edit, steps[..r]).live
    decreases |steps|
  {
    var n := |steps| - 1;
    if r < n {
      ValidPrefix(steps, n);
      assert steps[..n][r] == steps[r] && steps[..n][..r] == steps[..r] && steps[n] != steps[r];
      SeenIsRead(initial, edit, steps[..n], r);
    }
  }

  lemma {:induction false} NoSwapNoChange<T>(initial: T, edit: (nat, T) -> T, steps: seq<Step>, from: nat)
    requires from <= |steps| && forall k :: from <= k < |steps| ==> !steps[k].Swap?
    ensures Reached(initial, edit, steps).live == Reached(initial, edit, steps[..from]).live
    decreases |steps|
  {
    var n := |steps| - 1;
    if from <= n {
      assert steps[..n][..from] == steps[..from];
      NoSwapNoChange(initial, edit, steps[..n], from);
    } else {
      assert steps[..from] == steps;
    }
  }

  /**
   The last call to replace the file leaves its edit of what it read; whatever
   other calls put there in between is gone.
   */
  lemma LastSwapDecides<T>(initial: T, edit: (nat, T) -> T, steps: seq<Step>, r: nat, w: nat)
    requires Valid(steps) && r < w < |steps| && steps[r].Read? && steps[w] == Swap(steps[r].call)
    requires forall k :: w < k < |steps| ==> !steps[k].Swap?
    ensures Reached(initial, edit, steps).live == edit(steps[r].call, Reached(initial, edit, steps[..r]).live)
  {
    hide Reached, Valid;
    NoSwapNoChange(initial, edit, steps, w + 1);
    ValidPrefix(steps, w);
    assert steps[..w][r] == steps[r] && steps[..w][..r] == steps[..r];
    SeenIsRead(initial, edit, steps[..w], r);
    ReachedOn(initial, edit, steps[..w + 1]);
    assert steps[..w + 1][..w] == steps[..w];
  }

  // ---------- When nothing is lost ----------

  lemma UnovertakenPrefix(steps: seq<Step>, n: nat)
    requires Unovertaken(steps) && n <= |steps|
    ensures Unovertaken(steps[..n])
  {
  }

  lemma {:induction false} UnovertakenIsWhole(steps: seq<Step>)
    requires Valid(steps) && Unovertaken(steps)
    ensures Chain(steps) == Swaps(steps)
    decreases |steps|
  {
    hide Valid, Unovertaken, Reached;
    if steps == [] {
      NothingReached();
    } else {
      var w := |steps| - 1;
      ValidPrefix(steps, w);
      UnovertakenPrefix(steps, w);
      UnovertakenIsWhole(steps[..w]);
      ReachedOn([], Logged, steps);
      if steps[w].Swap? {
        LastSwapSawAll(steps);
      }
    }
  }

  lemma NothingReached()
    ensures Chain([]) == []
  {
  }

  /** A call that was not overtaken has read what the file holds when it replaces it. */
  lemma LastSwapSawAll(steps: seq<Step>)
    requires steps != [] && Valid(steps) && Unovertaken(steps) && steps[|steps| - 1].Swap?
    ensures var s, i := Reached([], Logged, steps[..|steps| - 1]), steps[|steps| - 1].call;
      i in s.seen && s.seen[i] == s.live
  {
    hide Reached;
    var w := |steps| - 1;
    ValidPrefix(steps, w);
    var r :| 0 <= r < w && steps[..w][r] == Read(steps[w].call);
    SeenIsRead([], Logged, steps[..w], r);
    assert steps[..w][..r] == steps[..r];
    forall k | r <= k < w ensures !steps[..w][k].Swap? {
      assert k > r ==> !steps[k].Swap?;
    }
    NoSwapNoChange([], Logged, steps[..w], r);
  }

  /** No log is longer than the number of replacements; and one that is as long
      was read from a file that was. */
  lemma {:induction false} LogsAreShort(steps: seq<Step>)
    ensures var s, n := Reached([], Logged, steps), |Swaps(steps)|;
      && |s.live| <= n
      && forall i :: i in s.seen ==> |s.seen[i]| <= n && (|s.seen[i]| == n ==> |s.live| == n)
    decreases |steps|
  {
    if steps != [] {
      LogsAreShort(steps[..|steps| - 1]);
    }
  }

  /** What was read before a replacement is short of it ever after. */
  lemma {:induction false} SeenIsShort(steps: seq<Step>, r: nat, m: nat)
    requires Valid(steps) && r < m < |steps| && steps[r].Read? && steps[m].Swap?
    ensures var s := Reached([], Logged, steps);
      steps[r].call in s.seen && |s.seen[steps[r].call]| < |Swaps(steps)|
    decreases |steps|
  {
    hide Reached, Swaps, Valid;
    var n := |steps| - 1;
    ValidPrefix(steps, n);
    ReachedOn([], Logged, steps);
    SwapsOn(steps);
    assert steps[..n][r] == steps[r];
    if m < n {
      StepsDiffer(steps, r, n);
      assert steps[..n][m] == steps[m];
      SeenIsShort(steps[..n], r, m);
    } else {
      SeenIsRead([], Logged, steps[..n], r);
      LogsAreShort(steps[..n]);
    }
  }

  lemma {:induction false} LostStaysLost(steps: seq<Step>, r: nat, m: nat, w: nat)
    requires Valid(steps) && r < m < w < |steps|
    requires steps[r].Read? && steps[m].Swap? && steps[w] == Swap(steps[r].call)
    ensures |Chain(steps)| < |Swaps(steps)|
    decreases |steps|
  {
    hide Reached, Swaps, Valid;
    var n := |steps| - 1;
    ValidPrefix(steps, n);
    ReachedOn([], Logged, steps);
    SwapsOn(steps);
    assert steps[..n][r] == steps[r] && steps[..n][m] == steps[m];
    if w < n {
      assert steps[..n][w] == steps[w];
      LostStaysLost(steps[..n], r, m, w);
      LogsAreShort(steps[..n]);
    } else {
      SeenIsShort(steps[..n], r, m);
    }
  }

  /** Every replacement's edit is in the file exactly when no call was overtaken. */
  lemma ChainIsWholeExactlyWhenUnovertaken(steps: seq<Step>)
    requires Valid(steps)
    ensures Chain(steps) == Swaps(steps) <==> Unovertaken(steps)
  {
    if Unovertaken(steps) {
      UnovertakenIsWhole(steps);
    } else {
      var r, m, w :| 0 <= r < m < w < |steps| && steps[r].Read? && steps[w] == Swap(steps[r].call) && steps[m].Swap?;
      LostStaysLost(steps, r, m, w);
    }
  }

  function Marked(call: nat, text: string): string {
    text + "x"
  }

  lemma {:induction false} MarksCount(calls: seq<nat>)
    ensures |Fold("", Marked, calls)| == |calls|
    decreases |calls|
  {
    if calls != [] {
      MarksCount(calls[..|calls| - 1]);
    }
  }

  /**
   The file ends as the calls' edits made one after the other, whatever the edits
   and the first text, if and only if no other call replaces it between a call's
   read and its own replacement.
   */
  lemma SequentialExactlyWhenUnovertaken(steps: seq<Step>)
    requires Valid(steps)
    ensures (forall initial: string, edit: (nat, string) -> string ::
               Reached(initial, edit, steps).live == Fold(initial, edit, Swaps(steps)))
         <==> Unovertaken(steps)
  {
    hide Reached, Swaps, Valid, Fold;
    if Unovertaken(steps) {
      UnovertakenIsWhole(steps);
      forall initial: string, edit: (nat, string) -> string
        ensures Reached(initial, edit, steps).live == Fold(initial, edit, Swaps(steps))
      {
        FileIsChain(initial, edit, steps);
      }
    } else {
      var r, m, w :| 0 <= r < m < w < |steps| && steps[r].Read? && steps[w] == Swap(steps[r].call) && steps[m].Swap?;
      LostStaysLost(steps, r, m, w);
      FileIsChain("", Marked, steps);
      MarksCount(Chain(steps));
      MarksCount(Swaps(steps));
      assert Reached("", Marked, steps).live != Fold("", Marked, Swaps(steps));
    }
  }
}
