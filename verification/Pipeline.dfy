/** The three stages of the online variant as threads that share two counters:
    the traverser publishes one slot per level, the pusher copies published
    slots to the expanders' side, and every expander consumes them.  A slot is
    written piece by piece, and a stage may be interrupted between any two
    writes.  Each party runs one such pipeline. */
module Pipeline {
  import opened Blocks
  import opened TreeShape
  import opened DpfTree
  import opened DpfRuns

  datatype Option<T> = None | Some(value: T)

  /** An expander thread: the next slot it needs, its cached counter, and the
      corrections it has used so far. */
  datatype Expander = Expander(slot: nat, cache: nat, used: seq<Correction>)

  datatype State = State(
    // written by the traverser
    onlineZ: seq<Option<Block>>, onlineAdvice: seq<Option<(bool, bool)>>, onlineReady: nat,
    traverserSlot: nat, traverserStage: nat,
    // private to the pusher
    pusherSlot: nat, pusherStage: nat, pusherCache: nat, pusherCopy: Correction,
    // written by the pusher
    offlineZ: seq<Option<Block>>, offlineL: seq<Option<bool>>, offlineR: seq<Option<bool>>, offlineReady: nat,
    expanders: seq<Expander>,
    // a slot was read before it was published, or written twice
    hazard: bool)

  datatype Step =
    | TraverserWriteZ | TraverserWriteAdvice | TraverserIncrement
    | PusherPoll | PusherRead | PusherWriteZ | PusherWriteL | PusherWriteR | PusherIncrement
    | ExpanderPoll(i: nat) | ExpanderUse(i: nat)

  function Blank<T>(n: nat): seq<Option<T>> {
    seq(n, _ => None)
  }

  function Init(slots: nat, threads: nat): State {
    State(Blank(slots), Blank(slots), 0, 0, 0,
          0, 0, 0, Correction(ZERO, false, false),
          Blank(slots), Blank(slots), Blank(slots), 0,
          seq(threads, _ => Expander(0, 0, [])), false)
  }

  /** An expander waits on its cached counter, except for the last slot, where
      it always reads the shared counter. */
  predicate MayUse(s: State, e: Expander, slots: nat) {
    && e.slot < slots
    && if e.slot + 1 < slots then e.slot + 1 <= e.cache else e.slot + 1 <= s.offlineReady
  }

  predicate Enabled(slots: nat, s: State, step: Step) {
    match step
    case TraverserWriteZ => s.traverserSlot < slots && s.traverserStage == 0
    case TraverserWriteAdvice => s.traverserSlot < slots && s.traverserStage == 1
    case TraverserIncrement => s.traverserSlot < slots && s.traverserStage == 2
    case PusherPoll => s.pusherSlot < slots && s.pusherStage == 0 && s.pusherCache < s.pusherSlot + 1
    case PusherRead => s.pusherSlot < slots && s.pusherStage == 0 && s.pusherSlot + 1 <= s.pusherCache
    case PusherWriteZ => s.pusherSlot < slots && s.pusherStage == 1
    case PusherWriteL => s.pusherSlot < slots && s.pusherStage == 2
    case PusherWriteR => s.pusherSlot < slots && s.pusherStage == 3
    case PusherIncrement => s.pusherSlot < slots && s.pusherStage == 4
    case ExpanderPoll(i) =>
      i < |s.expanders| && s.expanders[i].slot + 1 < slots && s.expanders[i].cache < s.expanders[i].slot + 1
    case ExpanderUse(i) => i < |s.expanders| && MayUse(s, s.expanders[i], slots)
  }

  function Write<T>(cells: seq<Option<T>>, k: nat, value: T): (seq<Option<T>>, bool) {
    if k < |cells| then (cells[k := Some(value)], cells[k].Some?) else (cells, true)
  }

  function Read<T>(cells: seq<Option<T>>, k: nat, default: T): (T, bool) {
    if k < |cells| && cells[k].Some? then (cells[k].value, false) else (default, true)
  }

  /** values are the corrections the traverser computes, slot by slot. */
  function Apply(values: seq<Correction>, s: State, step: Step): State
    requires Enabled(|values|, s, step)
  {
    match step
    case TraverserWriteZ =>
      var (cells, twice) := Write(s.onlineZ, s.traverserSlot, values[s.traverserSlot].z);
      s.(onlineZ := cells, traverserStage := 1, hazard := s.hazard || twice)
    case TraverserWriteAdvice =>
      var v := values[s.traverserSlot];
      var (cells, twice) := Write(s.onlineAdvice, s.traverserSlot, (v.left, v.right));
      s.(onlineAdvice := cells, traverserStage := 2, hazard := s.hazard || twice)
    case TraverserIncrement =>
      s.(onlineReady := s.onlineReady + 1, traverserSlot := s.traverserSlot + 1, traverserStage := 0)
    case PusherPoll =>
      s.(pusherCache := s.onlineReady)
    case PusherRead =>
      var (z, early) := Read(s.onlineZ, s.pusherSlot, ZERO);
      var (advice, early') := Read(s.onlineAdvice, s.pusherSlot, (false, false));
      s.(pusherCopy := Correction(z, advice.0, advice.1), pusherStage := 1, hazard := s.hazard || early || early')
    case PusherWriteZ =>
      var (cells, twice) := Write(s.offlineZ, s.pusherSlot, s.pusherCopy.z);
      s.(offlineZ := cells, pusherStage := 2, hazard := s.hazard || twice)
    case PusherWriteL =>
      var (cells, twice) := Write(s.offlineL, s.pusherSlot, s.pusherCopy.left);
      s.(offlineL := cells, pusherStage := 3, hazard := s.hazard || twice)
    case PusherWriteR =>
      var (cells, twice) := Write(s.offlineR, s.pusherSlot, s.pusherCopy.right);
      s.(offlineR := cells, pusherStage := 4, hazard := s.hazard || twice)
    case PusherIncrement =>
      s.(offlineReady := s.offlineReady + 1, pusherSlot := s.pusherSlot + 1, pusherStage := 0)
    case ExpanderPoll(i) =>
      s.(expanders := s.expanders[i := s.expanders[i].(cache := s.offlineReady)])
    case ExpanderUse(i) =>
      var e := s.expanders[i];
      var (z, early) := Read(s.offlineZ, e.slot, ZERO);
      var (l, early') := Read(s.offlineL, e.slot, false);
      var (r, early'') := Read(s.offlineR, e.slot, false);
      s.(expanders := s.expanders[i := e.(slot := e.slot + 1, used := e.used + [Correction(z, l, r)])],
         hazard := s.hazard || early || early' || early'')
  }

  // ---- The invariant ----

  /** How many cells are written when the write happens before the given stage. */
  function Written(slot: nat, stage: nat, after: nat): nat {
    if stage >= after then slot + 1 else slot
  }

  ghost predicate TraverserInv(values: seq<Correction>, s: State) {
    && |s.onlineZ| == |s.onlineAdvice| == |values|
    && s.onlineReady == s.traverserSlot <= |values| && s.traverserStage < 3
    && (s.traverserSlot == |values| ==> s.traverserStage == 0)
    && (forall j :: 0 <= j < |values| ==>
          s.onlineZ[j] == if j < Written(s.traverserSlot, s.traverserStage, 1) then Some(values[j].z) else None)
    && (forall j :: 0 <= j < |values| ==>
          s.onlineAdvice[j] == if j < Written(s.traverserSlot, s.traverserStage, 2)
                               then Some((values[j].left, values[j].right)) else None)
  }

  ghost predicate PusherInv(values: seq<Correction>, s: State) {
    && |s.offlineZ| == |s.offlineL| == |s.offlineR| == |values|
    && s.pusherSlot <= s.pusherCache <= s.onlineReady
    && s.offlineReady == s.pusherSlot <= |values| && s.pusherStage < 5
    && (s.pusherSlot == |values| ==> s.pusherStage == 0)
    && (s.pusherStage >= 1 ==> s.pusherSlot < s.pusherCache && s.pusherCopy == values[s.pusherSlot])
    && (forall j :: 0 <= j < |values| ==>
          s.offlineZ[j] == if j < Written(s.pusherSlot, s.pusherStage, 2) then Some(values[j].z) else None)
    && (forall j :: 0 <= j < |values| ==>
          s.offlineL[j] == if j < Written(s.pusherSlot, s.pusherStage, 3) then Some(values[j].left) else None)
    && (forall j :: 0 <= j < |values| ==>
          s.offlineR[j] == if j < Written(s.pusherSlot, s.pusherStage, 4) then Some(values[j].right) else None)
  }

  predicate ExpanderInv(values: seq<Correction>, s: State, e: Expander) {
    e.slot <= s.offlineReady <= |values| && e.cache <= s.offlineReady && e.used == values[..e.slot]
  }

  ghost predicate Inv(values: seq<Correction>, s: State) {
    && s.onlineReady <= |values|
    && TraverserInv(values, s) && PusherInv(values, s)
    && (forall i :: 0 <= i < |s.expanders| ==> ExpanderInv(values, s, s.expanders[i]))
    && !s.hazard
  }

  predicate IsTraverserStep(step: Step) {
    step.TraverserWriteZ? || step.TraverserWriteAdvice? || step.TraverserIncrement?
  }

  predicate IsExpanderStep(step: Step) {
    step.ExpanderPoll? || step.ExpanderUse?
  }

  lemma TraverserKeepsInv(values: seq<Correction>, s: State, step: Step)
    requires Inv(values, s) && Enabled(|values|, s, step) && IsTraverserStep(step)
    ensures Inv(values, Apply(values, s, step))
  {
  }

  lemma PusherKeepsInv(values: seq<Correction>, s: State, step: Step)
    requires Inv(values, s) && Enabled(|values|, s, step) && !IsTraverserStep(step) && !IsExpanderStep(step)
    ensures Inv(values, Apply(values, s, step))
  {
    hide ExpanderInv;
    var t := Apply(values, s, step);
    forall i | 0 <= i < |t.expanders|
      ensures ExpanderInv(values, t, t.expanders[i])
    {
      SeesMoreReady(values, s, t, s.expanders[i]);
    }
  }

  /** An expander is content with a counter that has only grown. */
  lemma SeesMoreReady(values: seq<Correction>, s: State, t: State, e: Expander)
    requires ExpanderInv(values, s, e) && s.offlineReady <= t.offlineReady <= |values|
    ensures ExpanderInv(values, t, e)
  {
  }

  lemma ExpanderKeepsInv(values: seq<Correction>, s: State, step: Step)
    requires Inv(values, s) && Enabled(|values|, s, step) && IsExpanderStep(step)
    ensures Inv(values, Apply(values, s, step))
  {
  }

  lemma StepKeepsInv(values: seq<Correction>, s: State, step: Step)
    requires Inv(values, s) && Enabled(|values|, s, step)
    ensures Inv(values, Apply(values, s, step))
  {
    hide Inv, Apply, Enabled;
    if IsTraverserStep(step) {
      TraverserKeepsInv(values, s, step);
    } else if IsExpanderStep(step) {
      ExpanderKeepsInv(values, s, step);
    } else {
      PusherKeepsInv(values, s, step);
    }
  }

  // ---- Runs ----

  /** Any interleaving: a sequence of steps, each enabled when it is taken. */
  predicate IsRun(values: seq<Correction>, s: State, steps: seq<Step>)
    decreases |steps|
  {
    steps == [] ||
    (Enabled(|values|, s, steps[0]) && IsRun(values, Apply(values, s, steps[0]), steps[1..]))
  }

  function End(values: seq<Correction>, s: State, steps: seq<Step>): State
    requires IsRun(values, s, steps)
    decreases |steps|
  {
    if steps == [] then s else End(values, Apply(values, s, steps[0]), steps[1..])
  }

  lemma InitInv(values: seq<Correction>, threads: nat)
    ensures Inv(values, Init(|values|, threads))
  {
  }

  lemma {:induction false} RunKeepsInv(values: seq<Correction>, s: State, steps: seq<Step>)
    requires Inv(values, s) && IsRun(values, s, steps)
    ensures Inv(values, End(values, s, steps))
    decreases |steps|
  {
    hide Inv, Apply, Enabled;
    if steps != [] {
      StepKeepsInv(values, s, steps[0]);
      RunKeepsInv(values, Apply(values, s, steps[0]), steps[1..]);
    }
  }

  lemma {:induction false} RunKeepsThreads(values: seq<Correction>, s: State, steps: seq<Step>)
    requires Inv(values, s) && IsRun(values, s, steps)
    ensures |End(values, s, steps).expanders| == |s.expanders|
    decreases |steps|
  {
    hide Inv, Apply, Enabled;
    if steps != [] {
      StepKeepsInv(values, s, steps[0]);
      StepIsMonotone(values, s, steps[0]);
      RunKeepsThreads(values, Apply(values, s, steps[0]), steps[1..]);
    }
  }

  /** In every interleaving: no slot is read before it is published or written
      twice; the counters stay within the number of slots and the consumers
      stay behind the producers; all threads are there, and every expander has
      used exactly the first corrections of the traverser, in order. */
  lemma EveryRunIsSafe(values: seq<Correction>, threads: nat, steps: seq<Step>)
    requires IsRun(values, Init(|values|, threads), steps)
    ensures var s := End(values, Init(|values|, threads), steps);
      && !s.hazard
      && s.offlineReady <= s.onlineReady <= |values|
      && |s.expanders| == threads
      && (forall i :: 0 <= i < threads ==>
            s.expanders[i].slot <= s.offlineReady && s.expanders[i].used == values[..s.expanders[i].slot])
  {
    InitInv(values, threads);
    RunKeepsInv(values, Init(|values|, threads), steps);
    RunKeepsThreads(values, Init(|values|, threads), steps);
  }

  /** Any step that may come next in any interleaving reads only cells that
      hold the traverser's values and writes only cells that are blank. */
  lemma NextAccessIsSafe(values: seq<Correction>, threads: nat, steps: seq<Step>, step: Step)
    requires IsRun(values, Init(|values|, threads), steps)
    requires Enabled(|values|, End(values, Init(|values|, threads), steps), step)
    ensures var s := End(values, Init(|values|, threads), steps);
      && |s.onlineZ| == |s.onlineAdvice| == |s.offlineZ| == |s.offlineL| == |s.offlineR| == |values|
      && match step
         case TraverserWriteZ => s.onlineZ[s.traverserSlot] == None
         case TraverserWriteAdvice => s.onlineAdvice[s.traverserSlot] == None
         case PusherRead =>
           var v := values[s.pusherSlot];
           s.onlineZ[s.pusherSlot] == Some(v.z) && s.onlineAdvice[s.pusherSlot] == Some((v.left, v.right))
         case PusherWriteZ => s.offlineZ[s.pusherSlot] == None && s.pusherCopy == values[s.pusherSlot]
         case PusherWriteL => s.offlineL[s.pusherSlot] == None && s.pusherCopy == values[s.pusherSlot]
         case PusherWriteR => s.offlineR[s.pusherSlot] == None && s.pusherCopy == values[s.pusherSlot]
         case ExpanderUse(i) =>
           var k := s.expanders[i].slot;
           && s.offlineZ[k] == Some(values[k].z) && s.offlineL[k] == Some(values[k].left)
           && s.offlineR[k] == Some(values[k].right)
         case _ => true
  {
    hide Init, IsRun, End;
    InitInv(values, threads);
    RunKeepsInv(values, Init(|values|, threads), steps);
  }

  /** Counters never go back and no thread un-uses a correction. */
  lemma StepIsMonotone(values: seq<Correction>, s: State, step: Step)
    requires Inv(values, s) && Enabled(|values|, s, step)
    ensures var t := Apply(values, s, step);
      && s.onlineReady <= t.onlineReady && s.offlineReady <= t.offlineReady && s.pusherCache <= t.pusherCache
      && |t.expanders| == |s.expanders|
      && (forall i :: 0 <= i < |s.expanders| ==>
            && s.expanders[i].slot <= t.expanders[i].slot && s.expanders[i].cache <= t.expanders[i].cache
            && s.expanders[i].used <= t.expanders[i].used)
  {
  }

  predicate Finished(slots: nat, s: State) {
    && s.traverserSlot == slots && s.pusherSlot == slots
    && forall i :: 0 <= i < |s.expanders| ==> s.expanders[i].slot == slots
  }

  /** A stage waits for its own counter only, and never for a slower stage: the
      traverser can always go on, the pusher as soon as its slot is counted,
      and each expander as soon as its slot is counted on its side. */
  lemma StagesWaitForCountersOnly(values: seq<Correction>, s: State)
    requires Inv(values, s)
    ensures s.traverserSlot < |values| ==>
      || Enabled(|values|, s, TraverserWriteZ) || Enabled(|values|, s, TraverserWriteAdvice)
      || Enabled(|values|, s, TraverserIncrement)
    ensures s.pusherSlot < s.onlineReady && s.pusherStage == 0 ==>
      Enabled(|values|, s, PusherPoll) || Enabled(|values|, s, PusherRead)
    ensures s.pusherStage > 0 ==>
      || Enabled(|values|, s, PusherWriteZ) || Enabled(|values|, s, PusherWriteL)
      || Enabled(|values|, s, PusherWriteR) || Enabled(|values|, s, PusherIncrement)
    ensures forall i :: 0 <= i < |s.expanders| && s.expanders[i].slot < s.offlineReady ==>
      Enabled(|values|, s, ExpanderPoll(i)) || Enabled(|values|, s, ExpanderUse(i))
  {
  }

  /** No deadlock: a state that is not finished has a step that changes it. */
  lemma SomeStepMakesProgress(values: seq<Correction>, s: State) returns (step: Step)
    requires Inv(values, s) && !Finished(|values|, s)
    ensures Enabled(|values|, s, step) && Work(Apply(values, s, step)) > Work(s)
  {
    if s.traverserSlot < |values| {
      step := if s.traverserStage == 0 then TraverserWriteZ
              else if s.traverserStage == 1 then TraverserWriteAdvice else TraverserIncrement;
    } else if s.pusherSlot < |values| {
      step := if s.pusherStage == 0 then (if s.pusherCache < s.pusherSlot + 1 then PusherPoll else PusherRead)
              else if s.pusherStage == 1 then PusherWriteZ
              else if s.pusherStage == 2 then PusherWriteL
              else if s.pusherStage == 3 then PusherWriteR else PusherIncrement;
    } else {
      var i :| 0 <= i < |s.expanders| && s.expanders[i].slot != |values|;
      var e := s.expanders[i];
      step := if MayUse(s, e, |values|) then ExpanderUse(i) else ExpanderPoll(i);
      ExpanderWorkUpdate(s.expanders, i, Apply(values, s, step).expanders[i]);
    }
  }

  // ---- Bounded work ----

  function ExpanderWork(es: seq<Expander>): nat {
    if es == [] then 0 else ExpanderWork(es[..|es| - 1]) + es[|es| - 1].slot + es[|es| - 1].cache
  }

  /** A measure of how far all threads have come. */
  function Work(s: State): nat {
    3 * s.traverserSlot + s.traverserStage + 5 * s.pusherSlot + s.pusherStage + s.pusherCache
    + ExpanderWork(s.expanders)
  }

  lemma {:induction false} ExpanderWorkUpdate(es: seq<Expander>, i: nat, e: Expander)
    requires i < |es|
    ensures ExpanderWork(es[i := e]) + es[i].slot + es[i].cache == ExpanderWork(es) + e.slot + e.cache
  {
    var n := |es| - 1;
    if i < n {
      ExpanderWorkUpdate(es[..n], i, e);
      assert es[i := e][..n] == es[..n][i := e];
    } else {
      assert es[i := e][..n] == es[..n];
    }
  }

  lemma {:induction false} ExpanderWorkBound(es: seq<Expander>, bound: nat)
    requires forall i :: 0 <= i < |es| ==> es[i].slot <= bound && es[i].cache <= bound
    ensures ExpanderWork(es) <= 2 * bound * |es|
  {
    if es != [] {
      ExpanderWorkBound(es[..|es| - 1], bound);
      assert 2 * bound * |es| == 2 * bound * (|es| - 1) + 2 * bound;
    }
  }

  /** Every step either leaves the state as it is (a poll that finds nothing
      new) or adds work, and work is limited: polling aside, runs are finite. */
  lemma StepAddsWork(values: seq<Correction>, s: State, step: Step)
    requires Inv(values, s) && Enabled(|values|, s, step)
    ensures var t := Apply(values, s, step);
      t == s || Work(t) > Work(s)
  {
    if IsExpanderStep(step) {
      ExpanderStepAddsWork(values, s, step);
    } else {
      OtherStepAddsWork(values, s, step);
    }
  }

  lemma ExpanderStepAddsWork(values: seq<Correction>, s: State, step: Step)
    requires Inv(values, s) && Enabled(|values|, s, step) && IsExpanderStep(step)
    ensures var t := Apply(values, s, step); t == s || Work(t) > Work(s)
  {
    hide ExpanderWork;
    var e, e' := s.expanders[step.i], Apply(values, s, step).expanders[step.i];
    ExpanderWorkUpdate(s.expanders, step.i, e');
    assert e' == e ==> s.expanders[step.i := e'] == s.expanders;
  }

  lemma OtherStepAddsWork(values: seq<Correction>, s: State, step: Step)
    requires Inv(values, s) && Enabled(|values|, s, step) && !IsExpanderStep(step)
    ensures var t := Apply(values, s, step); t == s || Work(t) > Work(s)
  {
  }

  function WorkLimit(slots: nat, threads: nat): nat {
    9 * slots + 2 * slots * threads
  }

  /** From every reachable state some interleaving completes, and then every
      expander has used all of the traverser's corrections. */
  lemma {:induction false} CanFinish(values: seq<Correction>, s: State) returns (steps: seq<Step>)
    requires Inv(values, s)
    ensures IsRun(values, s, steps) && Finished(|values|, End(values, s, steps))
    ensures forall i :: 0 <= i < |End(values, s, steps).expanders| ==>
              End(values, s, steps).expanders[i].used == values
    decreases WorkLimit(|values|, |s.expanders|) - Work(s)
  {
    if Finished(|values|, s) {
      steps := [];
    } else {
      var step := SomeStepMakesProgress(values, s);
      var t := Apply(values, s, step);
      StepKeepsInv(values, s, step);
      WorkIsLimited(values, t);
      StepIsMonotone(values, s, step);
      var rest := CanFinish(values, t);
      steps := [step] + rest;
      assert steps[1..] == rest;
    }
  }

  /** From the start some interleaving takes all threads through: every slot is
      counted on both sides and all expanders have used all corrections. */
  lemma CompleteRunExists(values: seq<Correction>, threads: nat) returns (steps: seq<Step>)
    ensures IsRun(values, Init(|values|, threads), steps)
    ensures var s := End(values, Init(|values|, threads), steps);
      && s.onlineReady == s.offlineReady == |values|
      && |s.expanders| == threads && forall i :: 0 <= i < threads ==> s.expanders[i].used == values
  {
    hide Init, IsRun, End;
    InitInv(values, threads);
    steps := CanFinish(values, Init(|values|, threads));
    RunKeepsInv(values, Init(|values|, threads), steps);
    EveryRunIsSafe(values, threads, steps);
  }

  lemma WorkIsLimited(values: seq<Correction>, s: State)
    requires Inv(values, s)
    ensures Work(s) <= WorkLimit(|values|, |s.expanders|)
  {
    ExpanderWorkBound(s.expanders, |values|);
  }

  /** Two parties, each under its own interleaving and with any number of
      expander threads: once the threads are through, the trees they expanded
      agree everywhere except at the index, where the control bits differ. */
  lemma EveryInterleavingSharesPoint(prg: Prg, topsA: seq<Block>, topsB: seq<Block>, top: Walk, size: nat, start: nat,
                                     index: nat, values: seq<Correction>, threadsA: nat, threadsB: nat,
                                     stepsA: seq<Step>, stepsB: seq<Step>, i: nat, j: nat)
    requires size >= 1 && start <= EndLevel(size) && |topsA| == Width(size, EndLevel(size), start)
    requires TopsAgree(topsA, topsB, top, PathAt(index, EndLevel(size), start))
    requires ArePublished(values, prg, top, index, EndLevel(size), start)
    requires IsRun(values, Init(|values|, threadsA), stepsA) && IsRun(values, Init(|values|, threadsB), stepsB)
    requires var a := End(values, Init(|values|, threadsA), stepsA).expanders;
             i < |a| && a[i].slot == |values|
    requires var b := End(values, Init(|values|, threadsB), stepsB).expanders;
             j < |b| && b[j].slot == |values|
    ensures var usedA := End(values, Init(|values|, threadsA), stepsA).expanders[i].used;
            var usedB := End(values, Init(|values|, threadsB), stepsB).expanders[j].used;
      && |usedA| == |usedB| == EndLevel(size) - start
      && OnPath(Pair(Expanded(prg, topsA, size, start, usedA, EndLevel(size)),
                     Expanded(prg, topsB, size, start, usedB, EndLevel(size))), index)
  {
    hide IsRun, End, Init, OnPath, TopsAgree, ArePublished, Expanded, Width, PathAt, EndLevel;
    EveryRunIsSafe(values, threadsA, stepsA);
    EveryRunIsSafe(values, threadsB, stepsB);
    assert values[..|values|] == values;
    WalkResult(prg, topsA, topsB, top, size, start, index, values);
    PublishedLength(values, prg, top, index, EndLevel(size), start);
  }

  lemma PublishedLength(values: seq<Correction>, prg: Prg, top: Walk, index: nat, endLevel: nat, start: nat)
    requires start <= endLevel && ArePublished(values, prg, top, index, endLevel, start)
    ensures |values| == endLevel - start
  {
  }
}
