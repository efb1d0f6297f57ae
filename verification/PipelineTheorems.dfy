/** Conservation, order and the exact shutdown guarantee of the agent pipeline, over
    every run of PipelineMachine. */
module PipelineTheorems {
  import opened Wrappers
  import opened Words
  import opened RingMachine
  import opened PipelineMachine

  ghost predicate StepAt<P, E>(run: seq<Pipe<P, E>>, i: nat)
    requires i + 1 < |run|
  {
    PipelineMachine.Next(run[i], run[i + 1])
  }

  ghost predicate IsRun<P, E>(run: seq<Pipe<P, E>>) {
    && run != [] && PipelineMachine.Init(run[0])
    && forall i: nat :: i + 1 < |run| ==> StepAt(run, i)
  }

  ghost predicate InvAt<P, E>(run: seq<Pipe<P, E>>, i: nat)
    requires i < |run|
  {
    PipelineMachine.Inv(run[i])
  }

  lemma RunKeepsInv<P, E>(run: seq<Pipe<P, E>>, i: nat)
    requires IsRun(run) && i < |run|
    ensures InvAt(run, i)
  {
    StartInv(run);
    var k := 0;
    while k < i
      invariant k <= i && InvAt(run, k)
    {
      k := k + 1;
      StepKeepsInv(run, k);
    }
  }

  lemma StartInv<P, E>(run: seq<Pipe<P, E>>)
    requires IsRun(run)
    ensures InvAt(run, 0)
  {
    PipelineMachine.InitInv(run[0]);
  }

  lemma StepKeepsInv<P, E>(run: seq<Pipe<P, E>>, i: nat)
    requires IsRun(run) && 0 < i < |run|
    ensures InvAt(run, i - 1) ==> InvAt(run, i)
  {
    assert StepAt(run, i - 1);
    if InvAt(run, i - 1) { PipelineMachine.NextKeepsInv(run[i - 1], run[i]); }
  }

  // Items accepted by the ring and not yet taken out.
  function Queued<C>(r: Ring<C>): seq<Item<C>> {
    if |r.popped| <= |r.pushed| then r.pushed[|r.popped|..] else []
  }

  lemma RingSplits<C>(r: Ring<C>)
    requires RingMachine.Inv(r)
    ensures r.pushed == r.popped + Queued(r) && |Queued(r)| <= r.cap
  {
    assert r.pushed == r.pushed[..|r.popped|] + r.pushed[|r.popped|..];
  }

  // The invariant without the inside of the two rings.
  lemma RunControl<P, E>(run: seq<Pipe<P, E>>, i: nat)
    requires IsRun(run) && i < |run|
    ensures Control(run[i]) && Counters(run[i])
  {
    RunKeepsInv(run, i);
  }

  lemma RunSplits<P, E>(run: seq<Pipe<P, E>>, i: nat)
    requires IsRun(run) && i < |run|
    ensures run[i].pkt.pushed == run[i].pkt.popped + Queued(run[i].pkt)
    ensures run[i].evt.pushed == run[i].evt.popped + Queued(run[i].evt)
  {
    RunKeepsInv(run, i);
    RingSplits(run[i].pkt);
    RingSplits(run[i].evt);
  }

  // No packet is lost, duplicated or reordered between capture and analysis.
  lemma PacketConservation<P, E>(run: seq<Pipe<P, E>>, i: nat)
    requires IsRun(run) && i < |run|
    ensures var s := run[i];
            s.pkt.pushed == s.analysed + Pending(s.pkt) + Queued(s.pkt)
  {
    RunControl(run, i);
    RunSplits(run, i);
  }

  // No event is lost, duplicated or reordered between analysis and the broker,
  // batches respect their bounds, and the two counters count what was sent.
  lemma EventConservation<P, E>(run: seq<Pipe<P, E>>, i: nat)
    requires IsRun(run) && i < |run|
    ensures var s := run[i];
            && s.evt.pushed == Concat(s.sent) + Held(s) + Pending(s.evt) + Queued(s.evt)
            && |s.batch| <= s.batchSize
            && (forall k :: 0 <= k < |s.sent| ==> 1 <= |s.sent[k]| <= s.batchSize)
            && (s.publish != UCountBatch && s.publish != UCountEvents ==>
                  && s.batchesSent == |s.sent| % WORD
                  && s.eventsSent == |Concat(s.sent)| % WORD)
  {
    RunControl(run, i);
    RunSplits(run, i);
  }

  // ---------------------------------------------------------------------
  // Accepted events are offered events, in order
  // ---------------------------------------------------------------------

  ghost predicate Subsequence<T>(a: seq<T>, b: seq<T>) {
    if a == [] then true
    else if b == [] then false
    else
      || (a[|a| - 1] == b[|b| - 1] && Subsequence(a[..|a| - 1], b[..|b| - 1]))
      || Subsequence(a, b[..|b| - 1])
  }

  lemma SubsequenceExtends<T>(a: seq<T>, b: seq<T>, x: T)
    requires Subsequence(a, b)
    ensures Subsequence(a, b + [x]) && Subsequence(a + [x], b + [x])
  {
    assert (b + [x])[..|b|] == b && (a + [x])[..|a|] == a;
  }

  function InFlight<C>(p: Producer<C>): seq<Item<C>> {
    match p
    case PLoadHead(x) => [x]
    case PLoadTail(x, _) => [x]
    case PTest(x, _, _, _) => [x]
    case PCopy(x, _, _) => [x]
    case _ => []
  }

  // `settled`: the events whose rb_push has returned.
  ghost predicate OfferedInOrder<P, E>(s: Pipe<P, E>, settled: seq<Item<E>>) {
    s.offered == settled + InFlight(s.evt.prod) && Subsequence(s.evt.pushed, settled)
  }

  lemma PushSettles<C>(r: Ring<C>, settled: seq<Item<C>>)
    requires ProducerActive(r) && Subsequence(r.pushed, settled)
    ensures var r' := ProducerNext(r);
            || (InFlight(r'.prod) == InFlight(r.prod) && r'.pushed == r.pushed)
            || (InFlight(r'.prod) == [] && Subsequence(r'.pushed, settled + InFlight(r.prod)))
  {
    match r.prod
    case PLoadHead(_) =>
    case PLoadTail(_, _) =>
    case PTest(x, _, _, _) => SubsequenceExtends(r.pushed, settled, x);
    case PCopy(x, _, _) => CopySettles(r, settled);
  }

  lemma CopySettles<C>(r: Ring<C>, settled: seq<Item<C>>)
    requires r.prod.PCopy? && Subsequence(r.pushed, settled)
    ensures var r' := ProducerNext(r);
            || (InFlight(r'.prod) == InFlight(r.prod) && r'.pushed == r.pushed)
            || (InFlight(r'.prod) == [] && Subsequence(r'.pushed, settled + InFlight(r.prod)))
  {
    SubsequenceExtends(r.pushed, settled, r.prod.item);
  }

  lemma AnalysisKeepsOffered<P, E>(s: Pipe<P, E>, s': Pipe<P, E>, settled: seq<Item<E>>)
    returns (settled': seq<Item<E>>)
    requires Flags(s) && OfferedInOrder(s, settled) && AnalysisStep(s, s')
    ensures OfferedInOrder(s', settled')
  {
    settled' := settled;
    if s.analysis == APush {
      if ProducerActive(s.evt) {
        PushSettles(s.evt, settled);
        if InFlight(s'.evt.prod) == [] { settled' := s.offered; }
      }
    } else {
      assert InFlight(s.evt.prod) == [] && s'.evt.pushed == s.evt.pushed;
    }
  }

  lemma OthersKeepOffered<P, E>(s: Pipe<P, E>, s': Pipe<P, E>)
    requires CaptureStep(s, s') || PublishStep(s, s') || MetricsStep(s, s')
    ensures s'.offered == s.offered && s'.evt.prod == s.evt.prod && s'.evt.pushed == s.evt.pushed
  {
    if CaptureStep(s, s') {
      assert s'.evt == s.evt && s'.offered == s.offered;
    } else if PublishStep(s, s') {
      PublishLeavesOffered(s, s');
    } else {
      ObserverHasEffect(s.evt);
      assert s'.offered == s.offered;
    }
  }

  lemma PublishLeavesOffered<P, E>(s: Pipe<P, E>, s': Pipe<P, E>)
    requires PublishStep(s, s')
    ensures s'.offered == s.offered && s'.evt.prod == s.evt.prod && s'.evt.pushed == s.evt.pushed
    ensures s'.analysis == s.analysis && s'.analysed == s.analysed
  {
    if s.publish == UPop {
      PopLeavesOffered(s, s');
    } else {
      LoopLeavesRings(s, s');
    }
  }

  lemma PopLeavesOffered<P, E>(s: Pipe<P, E>, s': Pipe<P, E>)
    requires PopEventStep(s, s')
    ensures s'.offered == s.offered && s'.evt.prod == s.evt.prod && s'.evt.pushed == s.evt.pushed
    ensures s'.analysis == s.analysis && s'.analysed == s.analysed
  {
    if ConsumerActive(s.evt) {
      assert s'.evt == ConsumerNext(s.evt);
    }
  }

  // Every accepted event was offered by the analysis, in the order it was offered;
  // an offered event is accepted, counted as an overflow, or still being pushed.
  lemma AcceptedInOrder<P, E>(run: seq<Pipe<P, E>>, i: nat) returns (settled: seq<Item<E>>)
    requires IsRun(run) && i < |run|
    ensures OfferedInOrder(run[i], settled)
    ensures |settled| == |run[i].evt.pushed| + |run[i].evt.refusedAt|
    ensures |run[i].offered| <= |run[i].analysed|
  {
    settled := RunOffered(run, i);
    RunControl(run, i);
    OfferedCounts(run[i], settled);
  }

  lemma OfferedCounts<P, E>(s: Pipe<P, E>, settled: seq<Item<E>>)
    requires Flags(s) && Events(s) && OfferedInOrder(s, settled)
    ensures |settled| == |s.evt.pushed| + |s.evt.refusedAt|
    ensures |s.offered| <= |s.analysed|
  {
  }

  lemma {:induction false} RunOffered<P, E>(run: seq<Pipe<P, E>>, i: nat) returns (settled: seq<Item<E>>)
    requires IsRun(run) && i < |run|
    ensures OfferedInOrder(run[i], settled)
  {
    if i == 0 {
      settled := [];
    } else {
      settled := RunOffered(run, i - 1);
      RunFlags(run, i - 1);
      assert StepAt(run, i - 1);
      settled := NextKeepsOffered(run[i - 1], run[i], settled);
    }
  }

  lemma RunFlags<P, E>(run: seq<Pipe<P, E>>, i: nat)
    requires IsRun(run) && i < |run|
    ensures Flags(run[i])
  {
    RunControl(run, i);
  }

  lemma NextKeepsOffered<P, E>(s: Pipe<P, E>, s': Pipe<P, E>, settled: seq<Item<E>>)
    returns (settled': seq<Item<E>>)
    requires Flags(s) && OfferedInOrder(s, settled) && PipelineMachine.Next(s, s')
    ensures OfferedInOrder(s', settled')
  {
    if AnalysisStep(s, s') {
      settled' := AnalysisKeepsOffered(s, s', settled);
    } else {
      OthersKeepOffered(s, s');
      settled' := settled;
    }
  }

  // ---------------------------------------------------------------------
  // Shutdown
  // ---------------------------------------------------------------------

  // Items accepted when the last failed pop loaded head.
  function EmptyMark<C>(r: Ring<C>): nat
    requires r.emptyAt != []
  {
    r.emptyAt[|r.emptyAt| - 1]
  }

  // The analysis thread exits on: failed pop, then capture flag seen set. Exactly
  // the packets accepted before that pop loaded head have been analysed; whatever
  // was accepted later stays behind. So "everything was drained" holds if and only
  // if nothing was accepted after that load, for which it is enough that the flag
  // was already set at the load.
  lemma AnalysisShutdown<P, E>(run: seq<Pipe<P, E>>, i: nat)
    requires IsRun(run) && i < |run| && run[i].analysis == ADone
    ensures var s := run[i];
            && s.captureDone && s.pkt.emptyAt != []
            && EmptyMark(s.pkt) <= |s.pkt.pushed|
            && s.analysed == s.pkt.pushed[..EmptyMark(s.pkt)]
            && Queued(s.pkt) == s.pkt.pushed[EmptyMark(s.pkt)..]
            && (s.analysed == s.pkt.pushed <==> |s.pkt.pushed| == EmptyMark(s.pkt))
            && (s.captureDoneAtPop ==> s.analysed == s.pkt.pushed)
  {
    RunControl(run, i);
    RunSplits(run, i);
  }

  // The publication thread's three exits. After a drained exit exactly the events
  // accepted before its last failed pop loaded head were sent; after a refused
  // batch at shutdown the batch and everything behind it is dropped.
  lemma PublishShutdown<P, E>(run: seq<Pipe<P, E>>, i: nat)
    requires IsRun(run) && i < |run| && run[i].publish.UDone?
    ensures var s := run[i];
            match s.publish.why
            case Drained =>
              && s.analysisDone && s.evt.emptyAt != []
              && EmptyMark(s.evt) <= |s.evt.pushed|
              && Concat(s.sent) == s.evt.pushed[..EmptyMark(s.evt)]
              && Queued(s.evt) == s.evt.pushed[EmptyMark(s.evt)..]
              && (Concat(s.sent) == s.evt.pushed <==> |s.evt.pushed| == EmptyMark(s.evt))
              && (s.analysisDoneAtPop ==> Concat(s.sent) == s.evt.pushed)
            case Refused =>
              s.analysisDone && s.batch != [] && s.evt.pushed == Concat(s.sent) + s.batch + Queued(s.evt)
            case NoMemory =>
              Concat(s.sent) == [] && Queued(s.evt) == s.evt.pushed
  {
    RunControl(run, i);
    RunSplits(run, i);
    if run[i].publish == UDone(Drained) { DrainedExit(run[i]); }
  }

  lemma DrainedExit<P, E>(s: Pipe<P, E>)
    requires Control(s) && Counters(s) && s.publish == UDone(Drained)
    ensures s.analysisDone && FoundEmpty(s.evt) && s.evt.popped == Concat(s.sent)
    ensures s.analysisDoneAtPop ==> |s.evt.popped| == |s.evt.pushed|
  {
    assert AfterFailedPop(s);
  }

  lemma StoppedStaysStopped<P, E>(s: Pipe<P, E>, s': Pipe<P, E>)
    requires Flags(s) && s.analysis == ADone && PipelineMachine.Next(s, s')
    ensures s'.analysis == ADone && s'.analysed == s.analysed && s'.pkt.pushed == s.pkt.pushed
  {
    if PublishStep(s, s') { PublishStepsRings(s, s'); PublishLeavesOffered(s, s'); }
  }

  // What is left behind at the exit is never analysed later.
  lemma {:induction false} LeftoverIsFinal<P, E>(run: seq<Pipe<P, E>>, i: nat, j: nat)
    requires IsRun(run) && i <= j < |run| && run[i].analysis == ADone
    ensures run[j].analysis == ADone
    ensures run[j].analysed == run[i].analysed && run[j].pkt.pushed == run[i].pkt.pushed
  {
    if i < j {
      LeftoverIsFinal(run, i, j - 1);
      AnalysisStaysDone(run, j - 1);
    }
  }

  lemma AnalysisStaysDone<P, E>(run: seq<Pipe<P, E>>, i: nat)
    requires IsRun(run) && i + 1 < |run| && run[i].analysis == ADone
    ensures run[i + 1].analysis == ADone
    ensures run[i + 1].analysed == run[i].analysed && run[i + 1].pkt.pushed == run[i].pkt.pushed
  {
    RunFlags(run, i);
    assert StepAt(run, i);
    StoppedStaysStopped(run[i], run[i + 1]);
  }

  // ---------------------------------------------------------------------
  // The drain race
  // ---------------------------------------------------------------------

  ghost predicate Path<P, E>(run: seq<Pipe<P, E>>) {
    run != [] && forall i: nat :: i + 1 < |run| ==> StepAt(run, i)
  }

  lemma Join<P, E>(p: seq<Pipe<P, E>>, q: seq<Pipe<P, E>>)
    requires Path(p) && Path(q) && PipelineMachine.Next(p[|p| - 1], q[0])
    ensures Path(p + q)
  {
    forall i: nat | i + 1 < |p + q|
      ensures StepAt(p + q, i)
    {
      if i + 1 < |p| {
        assert StepAt(p, i);
      } else if i >= |p| {
        assert StepAt(q, i - |p|);
      }
    }
  }

  // A capacity-2 ring of one-cell items nobody has pushed to or popped from yet.
  function FreshRing(prod: Producer<int>, cons: Consumer<int>, emptyAt: seq<nat>): Ring<int> {
    Ring(2, 1, [[0], [0]], 0, 0, 0, prod, cons, OIdle, false, [], [], [], emptyAt)
  }

  function FreshPipe(pkt: Ring<int>, capture: Capture, analysis: Analysis): Pipe<int, int> {
    Pipe(pkt, FreshRing(PIdle, CIdle, []), capture, analysis, UDone(NoMemory),
         capture == Stopped, false, 1, [], 0, 0, 100, 0, [], [], [], [], 0, false, false, [], [])
  }

  // The analysis pops, finds the ring empty, and is about to load the flag.
  lemma FailedPopPath() returns (path: seq<Pipe<int, int>>)
    ensures Path(path) && PipelineMachine.Init(path[0])
    ensures path[|path| - 1] == FreshPipe(FreshRing(PIdle, CIdle, [0]), Capturing, ACheck)
  {
    var s0 := FreshPipe(FreshRing(PIdle, CIdle, []), Capturing, ATop);
    assert IsCapacity(2) by { assert Pow2(1) == 2; }
    var s1 := FreshPipe(FreshRing(PIdle, CLoadTail, []), Capturing, APop);
    var s2 := FreshPipe(FreshRing(PIdle, CLoadHead(0), []), Capturing, APop);
    var s3 := FreshPipe(FreshRing(PIdle, CTest(0, 0, 0), []), Capturing, APop);
    var s4 := FreshPipe(FreshRing(PIdle, CDone(None), [0]), Capturing, APop);
    assert ConsumerNext(s3.pkt) == s4.pkt by { assert [] + [0] == [0]; }
    var s5 := FreshPipe(FreshRing(PIdle, CIdle, [0]), Capturing, ACheck);
    path := [s0, s1, s2, s3, s4, s5];
  }

  // One push of the cell 7 into the empty ring, from its call to its return.
  lemma PushStates(emptyAt: seq<nat>) returns (r: seq<Ring<int>>)
    ensures |r| == 7 && r[0] == FreshRing(PLoadHead([7]), CIdle, emptyAt)
    ensures r[6] == FreshRing(PIdle, CIdle, emptyAt).(slots := [[7], [0]], head := 1, pushed := [[7]])
    ensures forall i :: 0 <= i < 5 ==> ProducerActive(r[i]) && r[i + 1] == ProducerNext(r[i])
    ensures r[5].prod.PDone? && r[6] == r[5].(prod := PIdle)
  {
    var x, empty := [7], FreshRing(PIdle, CIdle, emptyAt);
    var full := empty.(slots := [[7], [0]]);
    var r3, r4 := empty.(prod := PCopy(x, 0, 0)), full.(prod := PCopy(x, 0, 1));
    var r5 := full.(prod := PDone(true), head := 1, pushed := [x]);
    assert ProducerNext(r3) == r4 by {
      assert Slot(r3, 0) == 0;
      var cell := [0][0 := 7];
      assert cell == [7];
      assert r3.slots[0 := cell] == [[7], [0]];
    }
    assert ProducerNext(r4) == r5 by { assert [] + [x] == [x]; }
    r := [empty.(prod := PLoadHead(x)), empty.(prod := PLoadTail(x, 0)),
          empty.(prod := PTest(x, 0, 0, 0)), r3, r4, r5, r5.(prod := PIdle)];
  }

  // Meanwhile the capture pushes one packet and finishes.
  lemma LatePacketPath() returns (path: seq<Pipe<int, int>>)
    ensures Path(path)
    ensures path[0] == FreshPipe(FreshRing(PLoadHead([7]), CIdle, [0]), Capturing, ACheck)
    ensures path[|path| - 1]
            == FreshPipe(FreshRing(PIdle, CIdle, [0]).(slots := [[7], [0]], head := 1, pushed := [[7]]),
                         Stopped, ACheck)
  {
    var r := PushStates([0]);
    var pushing := seq(7, i requires 0 <= i < 7 => FreshPipe(r[i], Capturing, ACheck));
    forall i: nat | i + 1 < |pushing|
      ensures StepAt(pushing, i)
    {
      assert CaptureStep(pushing[i], pushing[i + 1]);
    }
    var stopped := FreshPipe(r[6], Stopped, ACheck);
    Join(pushing, [stopped]);
    path := pushing + [stopped];
  }

  // The drain promised at shutdown can fail: a packet accepted between the failed
  // pop and the flag load is never analysed, although capture finished normally.
  lemma DrainCanMissAPacket() returns (run: seq<Pipe<int, int>>)
    ensures IsRun(run)
    ensures var s := run[|run| - 1];
            s.analysis == ADone && s.captureDone && s.pkt.pushed == [[7]] && s.analysed == []
  {
    var p := FailedPopPath();
    var q := LatePacketPath();
    var s := q[|q| - 1];
    var exiting := s.(analysis := AExit);
    var gone := s.(analysis := ADone, analysisDone := true);
    Join(p, q);
    Join(p + q, [exiting]);
    Join(p + q + [exiting], [gone]);
    run := p + q + [exiting] + [gone];
  }
}
