/** Concurrent edits of rw-eap.conf, each made on a text that was read before the lock was taken. */
module LostEdits {
  import opened ConfText
  import opened ConfLayout
  import opened ConfStore
  import opened ConfExpiry
  import opened ConfFile
  import opened LostUpdates

  /** Call `i` makes the `i`-th edit. */
  function Editing(es: seq<Edit>): (nat, string) -> string {
    (i: nat, text: string) => if i < |es| then EditText(text, es[i]) else text
  }

  /** The edits of the listed calls. */
  function Picked(es: seq<Edit>, calls: seq<nat>): seq<Edit>
    decreases |calls|
  {
    if calls == [] then []
    else
      var before := Picked(es, calls[..|calls| - 1]);
      if calls[|calls| - 1] < |es| then before + [es[calls[|calls| - 1]]] else before
  }

  lemma {:induction false} RunTextOn(text: string, es: seq<Edit>, e: Edit)
    ensures RunText(text, es + [e]) == EditText(RunText(text, es), e)
    decreases |es|
  {
    hide EditText;
    if es == [] {
      assert (es + [e])[1..] == [];
    } else {
      assert (es + [e])[1..] == es[1..] + [e];
      RunTextOn(EditText(text, es[0]), es[1..], e);
    }
  }

  lemma {:induction false} FoldIsRun(text: string, es: seq<Edit>, calls: seq<nat>)
    ensures Fold(text, Editing(es), calls) == RunText(text, Picked(es, calls))
    decreases |calls|
  {
    hide EditText, RunText;
    if calls == [] {
      assert RunText(text, []) == text by { RunNothing(text); }
    } else {
      var front, last := calls[..|calls| - 1], calls[|calls| - 1];
      FoldIsRun(text, es, front);
      if last < |es| {
        RunTextOn(text, Picked(es, front), es[last]);
      }
    }
  }

  lemma RunNothing(text: string)
    ensures RunText(text, []) == text
  {
  }

  lemma {:induction false} PickedAreEdits(es: seq<Edit>, calls: seq<nat>, e: Edit)
    requires e in Picked(es, calls)
    ensures e in es
    decreases |calls|
  {
    if calls != [] && e in Picked(es, calls[..|calls| - 1]) {
      PickedAreEdits(es, calls[..|calls| - 1], e);
    }
  }

  /**
   Any order of reads and replacements leaves a well-formed file. It holds the
   edits of the chain of calls that each read the one before, and all the edits in
   the order of the replacements if no call was overtaken.
   */
  lemma ConcurrentEdits(f: File, es: seq<Edit>, steps: seq<Step>) returns (g: File)
    requires ValidFile(f) && Complete(f) && PlainSecrets(Secrets(f.blocks))
    requires forall i :: 0 <= i < |es| ==> FitEdit(f.header, es[i])
    ensures ValidFile(g) && g.header == f.header && Reached(Render(f), Editing(es), steps).live == Render(g)
    ensures Secrets(g.blocks) == RunMap(Secrets(f.blocks), Picked(es, Chain(steps)))
    ensures Valid(steps) && Unovertaken(steps) ==>
      Secrets(g.blocks) == RunMap(Secrets(f.blocks), Picked(es, Swaps(steps)))
  {
    hide Render, Secrets, FitEdit, PlainSecrets, RunText, RunMap, Reached, Fold, Picked, Unovertaken, Valid;
    FileIsChain(Render(f), Editing(es), steps);
    FoldIsRun(Render(f), es, Chain(steps));
    var ps := Picked(es, Chain(steps));
    forall i | 0 <= i < |ps| ensures FitEdit(f.header, ps[i]) {
      PickedAreEdits(es, Chain(steps), ps[i]);
    }
    g := RunRefines(f, ps);
    if Valid(steps) && Unovertaken(steps) {
      UnovertakenIsWhole(steps);
    }
  }

  /** Both calls read, then the first replaces the file, then the second. */
  const OVERLAP := [Read(0), Read(1), Swap(0), Swap(1)]

  /** Then nothing of the first edit is left: a removed identity, for one, can be looked up as before. */
  lemma FirstEditIsLost(f: File, first: Edit, second: Edit) returns (g: File)
    requires ValidFile(f) && Complete(f) && PlainSecrets(Secrets(f.blocks)) && FitEdit(f.header, second)
    ensures ValidFile(g) && Reached(Render(f), Editing([first, second]), OVERLAP).live == Render(g)
    ensures Secrets(g.blocks) == EditMap(Secrets(f.blocks), second)
    ensures forall id :: Clear(f.header, id, Opening) ==>
      LookupText(Render(g), id) == Get(EditMap(Secrets(f.blocks), second), id)
  {
    hide Render, Secrets, FitEdit, PlainSecrets, EditText, EditMap, LookupText, Silent;
    var es := [first, second];
    OverlapIsValid();
    LastSwapDecides(Render(f), Editing(es), OVERLAP, 1, 3);
    NoSwapNoChange(Render(f), Editing(es), OVERLAP[..1], 0);
    g := EditRefines(f, second);
    forall id | Clear(f.header, id, Opening)
      ensures LookupText(Render(g), id) == Get(EditMap(Secrets(f.blocks), second), id)
    {
      LookupIsGet(g, id);
    }
  }

  lemma OverlapIsValid()
    ensures Valid(OVERLAP) && !Unovertaken(OVERLAP)
  {
    assert OVERLAP[..2][0] == Read(0) && OVERLAP[..3][1] == Read(1);
    forall w | 0 <= w < |OVERLAP| && OVERLAP[w].Swap? ensures Read(OVERLAP[w].call) in OVERLAP[..w] {
      assert OVERLAP[..w][w - 2] == Read(OVERLAP[w].call);
    }
    assert OVERLAP[1].Read? && OVERLAP[2].Swap? && OVERLAP[3] == Swap(OVERLAP[1].call);
  }
}
