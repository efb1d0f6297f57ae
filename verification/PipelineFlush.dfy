/** When the publication thread hands a batch to the broker: exactly which steps send, and
    a run in which the timeout sends a batch of one. */
module PipelineFlush {
  import opened Wrappers
  import opened Words
  import opened RingMachine
  import opened PipelineMachine
  import opened PipelineTheorems

  // ---------------------------------------------------------------------
  // How long the events of the batch have been held
  // ---------------------------------------------------------------------

  // Every held event has its time, and batch_start is that of the first one.
  ghost predicate HeldTimes<P, E>(s: Pipe<P, E>) {
    && |s.times| == |s.batch|
    && (s.batch != [] ==> s.batchStart == s.times[0])
  }

  lemma NextKeepsTimes<P, E>(s: Pipe<P, E>, s': Pipe<P, E>)
    requires HeldTimes(s) && PipelineMachine.Next(s, s')
    ensures HeldTimes(s')
  {
    if CaptureStep(s, s') {
      CaptureLeavesBatch(s, s');
    } else if AnalysisStep(s, s') {
      AnalysisLeavesBatch(s, s');
    } else if PublishStep(s, s') {
      PublishKeepsTimes(s, s');
    }
  }

  lemma CaptureLeavesBatch<P, E>(s: Pipe<P, E>, s': Pipe<P, E>)
    requires CaptureStep(s, s')
    ensures s'.batch == s.batch && s'.times == s.times && s'.batchStart == s.batchStart
  {
  }

  lemma AnalysisLeavesBatch<P, E>(s: Pipe<P, E>, s': Pipe<P, E>)
    requires AnalysisStep(s, s')
    ensures s'.batch == s.batch && s'.times == s.times && s'.batchStart == s.batchStart
  {
    match s.analysis
    case APop => PopLeavesBatch(s, s');
    case _ =>
  }

  lemma PopLeavesBatch<P, E>(s: Pipe<P, E>, s': Pipe<P, E>)
    requires s.analysis == APop && AnalysisStep(s, s')
    ensures s'.batch == s.batch && s'.times == s.times && s'.batchStart == s.batchStart
  {
  }

  lemma PublishKeepsTimes<P, E>(s: Pipe<P, E>, s': Pipe<P, E>)
    requires HeldTimes(s) && PublishStep(s, s')
    ensures HeldTimes(s')
  {
    match s.publish
    case UPop => PopKeepsTimes(s, s');
    case UDecide(now, drained) => DecideLeavesBatch(s, s', now, drained);
    case _ =>
  }

  lemma PopKeepsTimes<P, E>(s: Pipe<P, E>, s': Pipe<P, E>)
    requires HeldTimes(s) && PopEventStep(s, s')
    ensures HeldTimes(s')
  {
  }

  lemma DecideLeavesBatch<P, E>(s: Pipe<P, E>, s': Pipe<P, E>, now: int, drained: bool)
    requires DecideStep(s, s', now, drained)
    ensures s'.batch == s.batch && s'.times == s.times && s'.batchStart == s.batchStart
  {
  }

  lemma {:induction false} RunKeepsTimes<P, E>(run: seq<Pipe<P, E>>, i: nat)
    requires IsRun(run) && i < |run|
    ensures HeldTimes(run[i])
  {
    if i > 0 {
      RunKeepsTimes(run, i - 1);
      assert StepAt(run, i - 1);
      NextKeepsTimes(run[i - 1], run[i]);
    }
  }

  // ---------------------------------------------------------------------
  // When a batch is sent
  // ---------------------------------------------------------------------

  // The held batch is due: it is full, its first event was popped at least the timeout
  // ago, or events are left when the analysis is done.
  ghost predicate IsDue<P, E>(s: Pipe<P, E>, now: int, analysisDone: bool) {
    || |s.batch| == s.batchSize
    || (s.times != [] && now - s.times[0] >= s.batchTimeout)
    || (s.batch != [] && analysisDone)
  }

  // Past the loads of clock and flag the thread hands the held batch to the broker exactly
  // if it is due. An accepted batch is recorded as sent; a refused one is kept for the
  // next trip round the loop, or given up with the thread when the analysis is done.
  // Otherwise nothing is sent, and the thread leaves exactly when the analysis is done.
  lemma FlushExactly<P, E>(run: seq<Pipe<P, E>>, i: nat, now: int, drained: bool)
    requires IsRun(run) && i + 1 < |run|
    requires run[i].publish == UDecide(now, drained) && PublishStep(run[i], run[i + 1])
    ensures var s, s' := run[i], run[i + 1];
            && s.batchSize >= 1 && s'.batch == s.batch && s'.times == s.times
            && (s'.attempts == s.attempts + [s.batch] <==> IsDue(s, now, drained))
            && (s'.sent == s.sent + [s.batch] ==> IsDue(s, now, drained) && s'.publish == UCountBatch)
            && (IsDue(s, now, drained) && s'.sent != s.sent + [s.batch] ==>
                  s'.sent == s.sent && s'.publish == if drained then UDone(Refused) else UTop)
            && (!IsDue(s, now, drained) ==>
                  s'.attempts == s.attempts && s'.sent == s.sent
                  && s'.publish == if drained then UDone(Drained) else UTop)
  {
    RunKeepsTimes(run, i);
    RunControl(run, i);
    DecideOutcome(run[i], run[i + 1], now, drained);
  }

  lemma DecideOutcome<P, E>(s: Pipe<P, E>, s': Pipe<P, E>, now: int, drained: bool)
    requires HeldTimes(s) && Batches(s) && DecideStep(s, s', now, drained)
    ensures s.batchSize >= 1 && s'.batch == s.batch && s'.times == s.times
    ensures s'.attempts == s.attempts + [s.batch] <==> IsDue(s, now, drained)
    ensures s'.sent == s.sent + [s.batch] ==> IsDue(s, now, drained) && s'.publish == UCountBatch
    ensures IsDue(s, now, drained) && s'.sent != s.sent + [s.batch] ==>
              s'.sent == s.sent && s'.publish == if drained then UDone(Refused) else UTop
    ensures !IsDue(s, now, drained) ==>
              s'.attempts == s.attempts && s'.sent == s.sent
              && s'.publish == if drained then UDone(Drained) else UTop
  {
    assert |s.attempts + [s.batch]| != |s.attempts| && |s.sent + [s.batch]| != |s.sent|;
    assert IsDue(s, now, drained)
      <==> || |s.batch| == s.batchSize || (s.batch != [] && now - s.batchStart >= s.batchTimeout)
           || (drained && s.batch != []);
  }

  // And it can always do so: a step that sends the held batch exists exactly if it is due,
  // and then so does one in which the broker refuses it.
  lemma SendPossible<P, E>(run: seq<Pipe<P, E>>, i: nat, now: int, drained: bool)
    returns (s': Pipe<P, E>, refused: Pipe<P, E>)
    requires IsRun(run) && i < |run| && run[i].publish == UDecide(now, drained)
    ensures IsDue(run[i], now, drained) ==>
              && PublishStep(run[i], s') && s'.sent == run[i].sent + [run[i].batch]
              && PublishStep(run[i], refused) && refused.sent == run[i].sent
              && refused.attempts == run[i].attempts + [run[i].batch]
    ensures !IsDue(run[i], now, drained) ==>
              forall t :: DecideStep(run[i], t, now, drained) ==> t.sent == run[i].sent
  {
    var s := run[i];
    RunKeepsTimes(run, i);
    RunControl(run, i);
    s' := s.(publish := UCountBatch, attempts := s.attempts + [s.batch], sent := s.sent + [s.batch],
             delivered := s.delivered + s.batch);
    refused := s.(publish := if drained then UDone(Refused) else UTop, attempts := s.attempts + [s.batch]);
    DueMeans(s, now, drained);
    assert AcceptedStep(s, s') && RefusedStep(s, refused, drained);
  }

  lemma DueMeans<P, E>(s: Pipe<P, E>, now: int, drained: bool)
    requires HeldTimes(s)
    ensures IsDue(s, now, drained)
            <==> || |s.batch| == s.batchSize || (s.batch != [] && now - s.batchStart >= s.batchTimeout)
                 || (drained && s.batch != [])
  {
  }

  // Once the analysis is done, every later judgement knows it: each trip round the loop
  // sends what is held or ends the thread.
  lemma {:induction false} DrainedOnceDone<P, E>(run: seq<Pipe<P, E>>, i: nat, j: nat)
    requires IsRun(run) && i <= j < |run| && run[i].analysisDone && !run[i].publish.UDecide?
    ensures run[j].analysisDone && (run[j].publish.UDecide? ==> run[j].publish.drained)
  {
    if i < j {
      DrainedOnceDone(run, i, j - 1);
      assert StepAt(run, j - 1);
      StaysDrained(run[j - 1], run[j]);
    }
  }

  lemma StaysDrained<P, E>(s: Pipe<P, E>, s': Pipe<P, E>)
    requires PipelineMachine.Next(s, s') && s.analysisDone && (s.publish.UDecide? ==> s.publish.drained)
    ensures s'.analysisDone && (s'.publish.UDecide? ==> s'.publish.drained)
  {
    if PublishStep(s, s') {
      PublishStaysDrained(s, s');
    } else if AnalysisStep(s, s') {
      AnalysisKeepsBatching(s, s');
      AnalysisKeepsDone(s, s');
    }
  }

  lemma AnalysisKeepsDone<P, E>(s: Pipe<P, E>, s': Pipe<P, E>)
    requires AnalysisStep(s, s') && s.analysisDone
    ensures s'.analysisDone
  {
  }

  lemma PublishStaysDrained<P, E>(s: Pipe<P, E>, s': Pipe<P, E>)
    requires PublishStep(s, s') && s.analysisDone && (s.publish.UDecide? ==> s.publish.drained)
    ensures s'.analysisDone && (s'.publish.UDecide? ==> s'.publish.drained)
  {
    match s.publish
    case UPop => PopLeavesDone(s, s');
    case _ =>
  }

  lemma PopLeavesDone<P, E>(s: Pipe<P, E>, s': Pipe<P, E>)
    requires PopEventStep(s, s') && s.publish == UPop
    ensures s'.analysisDone == s.analysisDone && !s'.publish.UDecide?
  {
  }

  // ---------------------------------------------------------------------
  // A run in which the timeout sends
  // ---------------------------------------------------------------------

  // A capacity-2 ring that has accepted the cell 7.
  function Holding(cons: Consumer<int>): Ring<int> {
    FreshRing(PIdle, cons, []).(slots := [[7], [0]], head := 1, pushed := [[7]])
  }

  // The same ring once the cell has been taken out.
  function TakenOut(cons: Consumer<int>, emptyAt: seq<nat>): Ring<int> {
    Holding(cons).(tail := 1, popped := [[7]], emptyAt := emptyAt)
  }

  // One pop of the cell 7, from its call to its result.
  lemma PopStates() returns (r: seq<Ring<int>>)
    ensures |r| == 6 && r[0] == Holding(CLoadTail) && r[5] == TakenOut(CDone(Some([7])), [])
    ensures forall i :: 0 <= i < 5 ==> ConsumerActive(r[i]) && r[i + 1] == ConsumerNext(r[i])
  {
    var copying, copied, done := Holding(CCopy(0, [])), Holding(CCopy(0, [7])), TakenOut(CDone(Some([7])), []);
    CellCopied(copying, copied);
    assert ConsumerNext(copied) == done by { assert [] + [[7]] == [[7]]; }
    r := [Holding(CLoadTail), Holding(CLoadHead(0)), Holding(CTest(0, 1, 1)), copying, copied, done];
  }

  lemma CellCopied(r: Ring<int>, r': Ring<int>)
    requires r == Holding(CCopy(0, [])) && r' == Holding(CCopy(0, [7]))
    ensures ConsumerNext(r) == r'
  {
    assert Slot(r, 0) == 0;
    assert [] + [7] == [7];
  }

  // One failed pop behind it.
  lemma MissStates() returns (r: seq<Ring<int>>)
    ensures |r| == 4 && r[0] == TakenOut(CLoadTail, []) && r[3] == TakenOut(CDone(None), [1])
    ensures forall i :: 0 <= i < 3 ==> ConsumerActive(r[i]) && r[i + 1] == ConsumerNext(r[i])
  {
    r := [TakenOut(CLoadTail, []), TakenOut(CLoadHead(1), []), TakenOut(CTest(1, 1, 1), []),
          TakenOut(CDone(None), [1])];
    assert ConsumerNext(r[2]) == r[3] by { assert [] + [1] == [1]; }
  }

  // The steps inside one call, as each of the threads makes them.

  lemma CapturePath(s: Pipe<int, int>, r: seq<Ring<int>>) returns (path: seq<Pipe<int, int>>)
    requires s.capture == Capturing && r != []
    requires forall i: nat :: i + 1 < |r| ==> ProducerActive(r[i]) && r[i + 1] == ProducerNext(r[i])
    ensures Path(path) && path[0] == s.(pkt := r[0]) && path[|path| - 1] == s.(pkt := r[|r| - 1])
  {
    path := seq(|r|, i requires 0 <= i < |r| => s.(pkt := r[i]));
    forall i: nat | i + 1 < |path| ensures StepAt(path, i) {
      assert CaptureStep(path[i], path[i + 1]);
    }
  }

  lemma PacketPopPath(s: Pipe<int, int>, r: seq<Ring<int>>) returns (path: seq<Pipe<int, int>>)
    requires s.analysis == APop && !s.captureDone && !s.captureDoneAtPop && r != []
    requires forall i: nat :: i + 1 < |r| ==> ConsumerActive(r[i]) && r[i + 1] == ConsumerNext(r[i])
    ensures Path(path) && path[0] == s.(pkt := r[0]) && path[|path| - 1] == s.(pkt := r[|r| - 1])
  {
    path := seq(|r|, i requires 0 <= i < |r| => s.(pkt := r[i]));
    forall i: nat | i + 1 < |path| ensures StepAt(path, i) {
      assert AnalysisStep(path[i], path[i + 1]);
    }
  }

  lemma EventPushPath(s: Pipe<int, int>, r: seq<Ring<int>>) returns (path: seq<Pipe<int, int>>)
    requires s.analysis == APush && r != []
    requires forall i: nat :: i + 1 < |r| ==> ProducerActive(r[i]) && r[i + 1] == ProducerNext(r[i])
    ensures Path(path) && path[0] == s.(evt := r[0]) && path[|path| - 1] == s.(evt := r[|r| - 1])
  {
    path := seq(|r|, i requires 0 <= i < |r| => s.(evt := r[i]));
    forall i: nat | i + 1 < |path| ensures StepAt(path, i) {
      assert AnalysisStep(path[i], path[i + 1]);
    }
  }

  lemma EventPopPath(s: Pipe<int, int>, r: seq<Ring<int>>) returns (path: seq<Pipe<int, int>>)
    requires s.publish == UPop && !s.analysisDone && !s.analysisDoneAtPop && r != []
    requires forall i: nat :: i + 1 < |r| ==> ConsumerActive(r[i]) && r[i + 1] == ConsumerNext(r[i])
    ensures Path(path) && path[0] == s.(evt := r[0]) && path[|path| - 1] == s.(evt := r[|r| - 1])
  {
    path := seq(|r|, i requires 0 <= i < |r| => s.(evt := r[i]));
    forall i: nat | i + 1 < |path| ensures StepAt(path, i) {
      assert PopEventStep(path[i], path[i + 1]);
      assert PublishStep(path[i], path[i + 1]);
    }
  }

  // Batches of two, a timeout of 100 ms, nothing captured yet.
  function Waiting(pkt: Ring<int>, evt: Ring<int>): Pipe<int, int> {
    Pipe(pkt, evt, Capturing, ATop, UTop, false, false, 2, [], 0, 0, 100, 0,
         [], [], [], [], 0, false, false, [], [])
  }

  function Idle(): Ring<int> { FreshRing(PIdle, CIdle, []) }

  // The capture pushes one packet.
  lemma CapturedPath() returns (path: seq<Pipe<int, int>>)
    ensures Path(path) && path[0] == Waiting(Idle(), Idle())
    ensures path[|path| - 1] == Waiting(Holding(CIdle), Idle())
  {
    var s := Waiting(Idle(), Idle());
    var r := PushStates([]);
    var p := CapturePath(s, r[..6]);
    assert CaptureStep(s, p[0]);
    Join([s], p);
    var done := Waiting(Holding(CIdle), Idle());
    assert CaptureStep(p[|p| - 1], done);
    Join([s] + p, [done]);
    path := [s] + p + [done];
  }

  // The analysis takes it and is about to offer one event.
  lemma AnalysedPath() returns (path: seq<Pipe<int, int>>)
    ensures Path(path) && path[0] == Waiting(Holding(CLoadTail), Idle()).(analysis := APop)
    ensures path[|path| - 1] == Waiting(TakenOut(CDone(Some([7])), []), Idle()).(analysis := APop)
  {
    var r := PopStates();
    path := PacketPopPath(Waiting(Holding(CLoadTail), Idle()).(analysis := APop), r);
  }

  function Offering(evt: Ring<int>): Pipe<int, int> {
    Waiting(TakenOut(CIdle, []), evt).(analysis := APush, analysed := [[7]], offered := [[7]])
  }

  // The event goes into its ring.
  lemma OfferedPath() returns (path: seq<Pipe<int, int>>)
    ensures Path(path) && path[0] == Offering(FreshRing(PLoadHead([7]), CIdle, []))
    ensures path[|path| - 1] == Offering(Holding(CIdle)).(analysis := ATop)
  {
    var r := PushStates([]);
    var p := EventPushPath(Offering(r[0]), r[..6]);
    var done := Offering(Holding(CIdle)).(analysis := ATop);
    assert AnalysisStep(p[|p| - 1], done);
    Join(p, [done]);
    path := p + [done];
  }

  function Gathering(evt: Ring<int>): Pipe<int, int> {
    Offering(evt).(analysis := ATop)
  }

  // The publication thread pops the event at time 0,
  lemma GatheredPath() returns (path: seq<Pipe<int, int>>)
    ensures Path(path) && path[0] == Gathering(Holding(CLoadTail)).(publish := UPop)
    ensures path[|path| - 1] == Gathering(TakenOut(CIdle, [])).(batch := [[7]], times := [0])
  {
    var r := PopStates();
    var p := EventPopPath(Gathering(Holding(CLoadTail)).(publish := UPop), r);
    var done := Gathering(TakenOut(CIdle, [])).(batch := [[7]], times := [0]);
    assert PopEventStep(p[|p| - 1], done) by { assert [] + [[7]] == [[7]] && [] + [0] == [0]; }
    assert PublishStep(p[|p| - 1], done);
    Join(p, [done]);
    path := p + [done];
  }

  function Holds(cons: Consumer<int>, emptyAt: seq<nat>, publish: Publish): Pipe<int, int> {
    Gathering(TakenOut(cons, emptyAt)).(batch := [[7]], times := [0], publish := publish)
  }

  // finds no second one,
  lemma MissedPath() returns (path: seq<Pipe<int, int>>)
    ensures Path(path) && path[0] == Holds(CLoadTail, [], UPop)
    ensures path[|path| - 1] == Holds(CIdle, [1], UCheck)
  {
    var r := MissStates();
    var p := EventPopPath(Holds(CLoadTail, [], UPop), r);
    var done := Holds(CIdle, [1], UCheck);
    assert PopEventStep(p[|p| - 1], done);
    assert PublishStep(p[|p| - 1], done);
    Join(p, [done]);
    path := p + [done];
  }

  // and at time 100 sends the batch of one.
  lemma SentPath() returns (path: seq<Pipe<int, int>>)
    ensures Path(path) && path[0] == Holds(CIdle, [1], ULoad(100))
    ensures path[|path| - 1]
            == Holds(CIdle, [1], UCountBatch).(sent := [[[7]]], delivered := [[7]], attempts := [[[7]]])
  {
    var s, t := Holds(CIdle, [1], ULoad(100)), Holds(CIdle, [1], UDecide(100, false));
    var u := Holds(CIdle, [1], UCountBatch).(sent := [[[7]]], delivered := [[7]], attempts := [[[7]]]);
    assert PublishStep(s, t);
    assert AcceptedStep(t, u) by { assert [] + [[[7]]] == [[[7]]] && [] + [[7]] == [[7]]; }
    assert PublishStep(t, u);
    path := [s, t, u];
  }

  // The packet is analysed and its event goes into the ring,
  lemma ToBatchPath() returns (path: seq<Pipe<int, int>>)
    ensures Path(path) && path[0] == Waiting(Idle(), Idle())
    ensures path[|path| - 1] == Gathering(Holding(CIdle))
  {
    var a := CapturedPath();
    var b := AnalysedPath();
    assert AnalysisStep(a[|a| - 1], b[0]);
    Join(a, b);
    var c := OfferedPath();
    EventOffered(b[|b| - 1], c[0]);
    Join(a + b, c);
    path := a + b + c;
  }

  lemma EventOffered(s: Pipe<int, int>, t: Pipe<int, int>)
    requires s == Waiting(TakenOut(CDone(Some([7])), []), Idle()).(analysis := APop)
    requires t == Offering(FreshRing(PLoadHead([7]), CIdle, []))
    ensures PipelineMachine.Next(s, t)
  {
    assert AnalysisStep(s, t) by { assert [] + [[7]] == [[7]]; }
  }

  // and the publication gathers it, waits and sends.
  lemma FromBatchPath() returns (path: seq<Pipe<int, int>>)
    ensures Path(path) && path[0] == Gathering(Holding(CLoadTail)).(publish := UPop)
    ensures path[|path| - 1]
            == Holds(CIdle, [1], UCountBatch).(sent := [[[7]]], delivered := [[7]], attempts := [[[7]]])
  {
    var d := GatheredPath();
    var e := MissedPath();
    assert PublishStep(d[|d| - 1], e[0]);
    Join(d, e);
    var f := SentPath();
    assert PublishStep(e[|e| - 1], f[0]);
    Join(d + e, f);
    path := d + e + f;
  }

  // One event, room for a second one and the capture still running: the timeout sends
  // a batch of one.
  lemma TimeoutSendsPartBatch() returns (run: seq<Pipe<int, int>>)
    ensures IsRun(run) && run[0].batchSize == 2 && run[0].batchTimeout == 100
    ensures var s := run[|run| - 1];
            s.sent == [[[7]]] && s.capture == Capturing && !s.analysisDone && s.evt.pushed == [[7]]
  {
    var p := ToBatchPath();
    var q := FromBatchPath();
    assert PublishStep(p[|p| - 1], q[0]);
    Join(p, q);
    run := p + q;
    assert IsCapacity(2) by { assert Pow2(1) == 2; }
  }
}
