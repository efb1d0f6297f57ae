/** pipeline.c as a state machine: capture, analysis, publication and metrics threads
    over two lock-free rings, interleaved at every atomic access. The fields from
    `analysed` on are history. */
module PipelineMachine {
  import opened Wrappers
  import opened Words
  import opened RingMachine

  datatype Capture = Capturing | Stopped

  datatype Analysis = ATop | APop | APush | ACheck | AExit | ADone

  datatype Exit = Drained | Refused | NoMemory

  datatype Publish =
    | UTop
    | UPop
    | UCheck
    // the clock as it was read to judge the timeout
    | ULoad(now: int)
    | UDecide(now: int, drained: bool)
    | UCountBatch
    | UCountEvents
    | UDone(why: Exit)

  datatype Pipe<P, E> = Pipe(
    pkt: Ring<P>,
    evt: Ring<E>,
    capture: Capture,
    analysis: Analysis,
    publish: Publish,
    captureDone: bool,
    analysisDone: bool,
    batchSize: nat,
    batch: seq<Item<E>>,
    batchesSent: nat,
    eventsSent: nat,
    batchTimeout: int,
    batchStart: int,             // the clock when the first held event was popped
    analysed: seq<Item<P>>,
    offered: seq<Item<E>>,       // events handed to rb_push, accepted or not
    sent: seq<seq<Item<E>>>,     // batches the broker accepted
    delivered: seq<Item<E>>,     // their events, one after the other
    counted: nat,                // events g_events_sent has been advanced by
    captureDoneAtPop: bool,      // g_capture_done when the last rb_pkt pop loaded head
    analysisDoneAtPop: bool,     // g_analysis_done when the last rb_evt pop loaded head
    times: seq<int>,             // when each held event was popped
    attempts: seq<seq<Item<E>>>  // batches handed to the broker, accepted or not
  )

  ghost predicate Init<P, E>(s: Pipe<P, E>) {
    && RingMachine.Init(s.pkt) && RingMachine.Init(s.evt)
    && s.capture == Capturing && s.analysis == ATop
    && (s.publish == UTop || s.publish == UDone(NoMemory))
    && !s.captureDone && !s.analysisDone && s.batchSize >= 1
    && s.batch == [] && s.batchesSent == 0 && s.eventsSent == 0
    && s.analysed == [] && s.offered == [] && s.sent == [] && s.delivered == [] && s.counted == 0
    && !s.captureDoneAtPop && !s.analysisDoneAtPop && s.times == [] && s.attempts == []
  }

  // pcap_loop with packet_handler pushing whatever arrives, then the done flag.
  ghost predicate CaptureStep<P, E>(s: Pipe<P, E>, s': Pipe<P, E>) {
    && s.capture == Capturing
    && (
      || (s.pkt.prod.PIdle? && s'.pkt.prod.PLoadHead? && |s'.pkt.prod.item| == s.pkt.slotSize
          && s' == s.(pkt := s.pkt.(prod := s'.pkt.prod)))
      || (ProducerActive(s.pkt) && s' == s.(pkt := ProducerNext(s.pkt)))
      || (s.pkt.prod.PDone? && s' == s.(pkt := s.pkt.(prod := PIdle)))
      || (s.pkt.prod.PIdle? && s' == s.(capture := Stopped, captureDone := true))
    )
  }

  // analyze_packet publishes at most one event for a packet.
  ghost predicate AnalysisStep<P, E>(s: Pipe<P, E>, s': Pipe<P, E>) {
    match s.analysis
    case ATop => s' == s.(pkt := s.pkt.(cons := CLoadTail), analysis := APop)
    case APop =>
      if ConsumerActive(s.pkt) then
        s' == s.(pkt := ConsumerNext(s.pkt),
                 captureDoneAtPop := if s.pkt.cons.CLoadHead? then s.captureDone else s.captureDoneAtPop)
      else if s.pkt.cons == CDone(None) then
        s' == s.(pkt := s.pkt.(cons := CIdle), analysis := ACheck)
      else
        && s.pkt.cons.CDone?
        && var t := s.(pkt := s.pkt.(cons := CIdle), analysed := s.analysed + [s.pkt.cons.result.value]);
           || s' == t.(analysis := ATop)
           || (s'.evt.prod.PLoadHead? && |s'.evt.prod.item| == s.evt.slotSize
               && s' == t.(analysis := APush, evt := s.evt.(prod := s'.evt.prod),
                           offered := s.offered + [s'.evt.prod.item]))
    case APush =>
      || (ProducerActive(s.evt) && s' == s.(evt := ProducerNext(s.evt)))
      || (s.evt.prod.PDone? && s' == s.(evt := s.evt.(prod := PIdle), analysis := ATop))
    case ACheck => s' == s.(analysis := if s.captureDone then AExit else ATop)
    case AExit => s' == s.(analysisDone := true, analysis := ADone)
    case ADone => false
  }

  // One step of the publication's rb_pop, or its return.
  ghost predicate PopEventStep<P, E>(s: Pipe<P, E>, s': Pipe<P, E>) {
    if ConsumerActive(s.evt) then
      s' == s.(evt := ConsumerNext(s.evt),
               analysisDoneAtPop := if s.evt.cons.CLoadHead? then s.analysisDone else s.analysisDoneAtPop)
    else if s.evt.cons == CDone(None) then
      s' == s.(evt := s.evt.(cons := CIdle), publish := UCheck)
    else
      && s.evt.cons.CDone? && |s'.times| == |s.times| + 1
      && var now := s'.times[|s.times|];
         s' == s.(evt := s.evt.(cons := CIdle), publish := UTop, batch := s.batch + [s.evt.cons.result.value],
                  batchStart := if s.batch == [] then now else s.batchStart, times := s.times + [now])
  }

  // The held batch goes to the broker, which accepts or refuses it; without one to send
  // the thread goes round, or leaves when the analysis is done.
  ghost predicate DecideStep<P, E>(s: Pipe<P, E>, s': Pipe<P, E>, now: int, drained: bool) {
    if |s.batch| == s.batchSize || (s.batch != [] && now - s.batchStart >= s.batchTimeout)
       || (drained && s.batch != []) then
      RefusedStep(s, s', drained) || AcceptedStep(s, s')
    else
      s' == s.(publish := if drained then UDone(Drained) else UTop)
  }

  ghost predicate RefusedStep<P, E>(s: Pipe<P, E>, s': Pipe<P, E>, drained: bool) {
    s' == s.(publish := if drained then UDone(Refused) else UTop, attempts := s.attempts + [s.batch])
  }

  ghost predicate AcceptedStep<P, E>(s: Pipe<P, E>, s': Pipe<P, E>) {
    s' == s.(publish := UCountBatch, attempts := s.attempts + [s.batch], sent := s.sent + [s.batch],
             delivered := s.delivered + s.batch)
  }

  ghost predicate CountEventsStep<P, E>(s: Pipe<P, E>, s': Pipe<P, E>) {
    s' == s.(publish := UTop, batch := [], times := [], counted := s.counted + |s.batch|,
             eventsSent := (s.eventsSent + |s.batch|) % WORD)
  }

  // The batching loop; the clock and the broker answer arbitrarily.
  ghost predicate PublishStep<P, E>(s: Pipe<P, E>, s': Pipe<P, E>) {
    match s.publish
    case UTop =>
      if |s.batch| < s.batchSize then
        s' == s.(evt := s.evt.(cons := CLoadTail), publish := UPop)
      else
        s' == s.(publish := UCheck)
    case UPop => PopEventStep(s, s')
    case UCheck =>
      s'.publish.ULoad? && s' == s.(publish := s'.publish)
    case ULoad(now) => s' == s.(publish := UDecide(now, s.analysisDone))
    case UDecide(now, drained) => DecideStep(s, s', now, drained)
    case UCountBatch => s' == s.(publish := UCountEvents, batchesSent := WrapInc(s.batchesSent))
    case UCountEvents => CountEventsStep(s, s')
    case UDone(_) => false
  }

  // metrics_thread only reads the two depths.
  ghost predicate MetricsStep<P, E>(s: Pipe<P, E>, s': Pipe<P, E>) {
    s' == s.(pkt := ObserverNext(s.pkt)) || s' == s.(evt := ObserverNext(s.evt))
  }

  ghost predicate Next<P, E>(s: Pipe<P, E>, s': Pipe<P, E>) {
    CaptureStep(s, s') || AnalysisStep(s, s') || PublishStep(s, s') || MetricsStep(s, s')
  }

  // ---------------------------------------------------------------------
  // Invariant
  // ---------------------------------------------------------------------

  function Concat<T>(ss: seq<seq<T>>): seq<T> {
    if ss == [] then [] else Concat(ss[..|ss| - 1]) + ss[|ss| - 1]
  }

  // The item a finished pop has taken out but not yet delivered to its thread.
  function Pending<C>(r: Ring<C>): seq<Item<C>> {
    if r.cons.CDone? && r.cons.result.Some? then [r.cons.result.value] else []
  }

  // Events in the batch that no accepted send has covered yet.
  function Held<P, E>(s: Pipe<P, E>): seq<Item<E>> {
    if s.publish == UCountBatch || s.publish == UCountEvents then [] else s.batch
  }

  // The last failed pop saw everything that had been popped, and nothing more.
  ghost predicate FoundEmpty<C>(r: Ring<C>) {
    r.emptyAt != [] && r.emptyAt[|r.emptyAt| - 1] == |r.popped|
  }

  ghost predicate Flags<P, E>(s: Pipe<P, E>) {
    && (s.captureDone <==> s.capture == Stopped)
    && (s.captureDone ==> s.pkt.prod.PIdle?)
    && (s.analysisDone <==> s.analysis == ADone)
    && (s.analysis == AExit || s.analysis == ADone ==> s.captureDone)
    && (s.analysis == APop <==> !s.pkt.cons.CIdle?)
    && (s.analysis == APush <==> !s.evt.prod.PIdle?)
    && (s.publish == UPop <==> !s.evt.cons.CIdle?)
  }

  ghost predicate Packets<P, E>(s: Pipe<P, E>) {
    && s.pkt.popped == s.analysed + Pending(s.pkt)
    && (s.analysis == ACheck || s.analysis == AExit || s.analysis == ADone ==> FoundEmpty(s.pkt))
    && (s.captureDoneAtPop && s.analysis == APop && s.pkt.cons.CTest? ==>
          s.captureDone && s.pkt.cons.pushesSeen == |s.pkt.pushed|)
    && (s.captureDoneAtPop && s.analysis == APop && s.pkt.cons == CDone(None) ==>
          s.captureDone && |s.pkt.popped| == |s.pkt.pushed|)
    && (s.captureDoneAtPop && (s.analysis == ACheck || s.analysis == AExit || s.analysis == ADone) ==>
          s.captureDone && |s.pkt.popped| == |s.pkt.pushed|)
  }

  ghost predicate Events<P, E>(s: Pipe<P, E>) {
    && s.evt.popped == s.delivered + Held(s) + Pending(s.evt)
    && |s.offered| == |s.evt.pushed| + |s.evt.refusedAt| + (if ProducerActive(s.evt) then 1 else 0)
    && |s.offered| <= |s.analysed|
    && (s.analysisDoneAtPop && s.publish == UPop && s.evt.cons.CTest? ==>
          s.analysisDone && s.evt.cons.pushesSeen == |s.evt.pushed|)
    && (s.analysisDoneAtPop && s.publish == UPop && s.evt.cons == CDone(None) ==>
          s.analysisDone && |s.evt.popped| == |s.evt.pushed|)
    && (s.analysisDoneAtPop && AfterFailedPop(s) ==>
          s.analysisDone && |s.evt.popped| == |s.evt.pushed|)
  }

  // Between a failed rb_evt pop and the next trip round the loop.
  ghost predicate AfterFailedPop<P, E>(s: Pipe<P, E>) {
    && |s.batch| < s.batchSize
    && (s.publish == UCheck || s.publish.ULoad? || s.publish.UDecide? || s.publish == UDone(Drained))
  }

  ghost predicate Batches<P, E>(s: Pipe<P, E>) {
    && 1 <= s.batchSize && |s.batch| <= s.batchSize
    && (s.publish == UPop ==> |s.batch| < s.batchSize)
    && (AfterFailedPop(s) ==> FoundEmpty(s.evt))
    && (s.publish.UDecide? && s.publish.drained ==> s.analysisDone)
    && (s.publish == UDone(Drained) ==> s.analysisDone && s.batch == [])
    && (s.publish == UDone(Refused) ==> s.analysisDone && s.batch != [])
    && (s.publish == UDone(NoMemory) ==> s.batch == [] && s.delivered == [] && s.evt.popped == [])
  }

  // The two counters the metrics report, against the history of sent batches.
  ghost predicate Counters<P, E>(s: Pipe<P, E>) {
    && s.delivered == Concat(s.sent)
    && (forall k :: 0 <= k < |s.sent| ==> 1 <= |s.sent[k]| <= s.batchSize)
    && (s.publish == UCountBatch ==> s.sent != [])
    && s.batchesSent == (if s.publish == UCountBatch then |s.sent| - 1 else |s.sent|) % WORD
    && s.counted + (if s.publish == UCountBatch || s.publish == UCountEvents then |s.batch| else 0)
       == |s.delivered|
    && s.eventsSent == s.counted % WORD
  }

  // What the ring invariant tells the threads around the ring.
  ghost predicate Facts<C>(r: Ring<C>) {
    && |r.popped| <= |r.pushed|
    && (r.cons.CTest? ==> |r.popped| <= r.cons.pushesSeen <= |r.pushed|)
    && (r.cons.CTest? ==> (r.cons.t == r.cons.h <==> r.cons.pushesSeen == |r.popped|))
    && (r.cons == CDone(None) ==> FoundEmpty(r))
  }

  lemma FactsHold<C>(r: Ring<C>)
    requires RingMachine.Inv(r)
    ensures Facts(r)
  {
    if r.cons.CTest? { EmptyTest(r); }
  }

  ghost predicate Control<P, E>(s: Pipe<P, E>) {
    && Facts(s.pkt) && Facts(s.evt)
    && Flags(s) && Packets(s) && Events(s) && Batches(s)
  }

  ghost predicate Inv<P, E>(s: Pipe<P, E>) {
    && RingMachine.Inv(s.pkt) && RingMachine.Inv(s.evt)
    && Control(s) && Counters(s)
  }

  lemma InitInv<P, E>(s: Pipe<P, E>)
    requires Init(s)
    ensures Inv(s)
  {
    RingMachine.InitInv(s.pkt);
    RingMachine.InitInv(s.evt);
    FactsHold(s.pkt);
    FactsHold(s.evt);
  }

  // Every pipeline step moves each ring by one ring step or leaves it alone.
  lemma RingsKeepInv<P, E>(s: Pipe<P, E>, s': Pipe<P, E>)
    requires RingMachine.Inv(s.pkt) && RingMachine.Inv(s.evt) && Flags(s) && Next(s, s')
    ensures RingMachine.Inv(s'.pkt) && RingMachine.Inv(s'.evt)
    ensures Facts(s'.pkt) && Facts(s'.evt)
  {
    StepsRings(s, s');
    if s'.pkt != s.pkt { RingMachine.NextKeepsInv(s.pkt, s'.pkt); }
    if s'.evt != s.evt { RingMachine.NextKeepsInv(s.evt, s'.evt); }
    FactsHold(s'.pkt);
    FactsHold(s'.evt);
  }

  lemma StepsRings<P, E>(s: Pipe<P, E>, s': Pipe<P, E>)
    requires Flags(s) && Next(s, s')
    ensures s'.pkt == s.pkt || RingMachine.Next(s.pkt, s'.pkt)
    ensures s'.evt == s.evt || RingMachine.Next(s.evt, s'.evt)
  {
    if CaptureStep(s, s') {
      CaptureStepsRings(s, s');
    } else if AnalysisStep(s, s') {
      AnalysisStepsRings(s, s');
    } else if PublishStep(s, s') {
      PublishStepsRings(s, s');
    }
  }

  lemma CaptureStepsRings<P, E>(s: Pipe<P, E>, s': Pipe<P, E>)
    requires CaptureStep(s, s')
    ensures s'.pkt == s.pkt || RingMachine.Next(s.pkt, s'.pkt)
    ensures s'.evt == s.evt
  {
  }

  lemma AnalysisStepsRings<P, E>(s: Pipe<P, E>, s': Pipe<P, E>)
    requires Flags(s) && AnalysisStep(s, s')
    ensures s'.pkt == s.pkt || RingMachine.Next(s.pkt, s'.pkt)
    ensures s'.evt == s.evt || RingMachine.Next(s.evt, s'.evt)
  {
  }

  lemma PublishStepsRings<P, E>(s: Pipe<P, E>, s': Pipe<P, E>)
    requires Flags(s) && PublishStep(s, s')
    ensures s'.pkt == s.pkt
    ensures s'.evt == s.evt || RingMachine.Next(s.evt, s'.evt)
  {
    if s.publish == UPop {
      PopEventStepsRing(s, s');
    } else {
      LoopLeavesRings(s, s');
    }
  }

  lemma PopEventStepsRing<P, E>(s: Pipe<P, E>, s': Pipe<P, E>)
    requires PopEventStep(s, s')
    ensures s'.pkt == s.pkt && RingMachine.Next(s.evt, s'.evt)
  {
  }

  // Between its pops the publication touches the event ring only to call rb_pop.
  lemma LoopLeavesRings<P, E>(s: Pipe<P, E>, s': Pipe<P, E>)
    requires PublishStep(s, s') && s.publish != UPop
    ensures s'.pkt == s.pkt
    ensures s'.evt == s.evt || (s.publish == UTop && s'.evt == s.evt.(cons := CLoadTail))
    ensures Flags(s) ==> s'.evt == s.evt || RingMachine.Next(s.evt, s'.evt)
    ensures s'.offered == s.offered && s'.analysis == s.analysis && s'.analysed == s.analysed
  {
    match s.publish
    case UDecide(now, drained) => DecideLeavesRings(s, s', now, drained);
    case _ =>
  }

  lemma DecideLeavesRings<P, E>(s: Pipe<P, E>, s': Pipe<P, E>, now: int, drained: bool)
    requires DecideStep(s, s', now, drained)
    ensures s'.pkt == s.pkt && s'.evt == s.evt
    ensures s'.offered == s.offered && s'.analysis == s.analysis && s'.analysed == s.analysed
  {
  }

  // What one step of each role does to a ring, as far as the threads can tell.
  ghost predicate ProducerEffect<C>(r: Ring<C>, r': Ring<C>) {
    && r'.popped == r.popped && r'.cons == r.cons && r'.emptyAt == r.emptyAt
    && r'.slotSize == r.slotSize && !r'.prod.PIdle?
    && |r'.pushed| + |r'.refusedAt| + (if ProducerActive(r') then 1 else 0)
       == |r.pushed| + |r.refusedAt| + 1
  }

  ghost predicate ConsumerEffect<C>(r: Ring<C>, r': Ring<C>) {
    && r'.pushed == r.pushed && r'.prod == r.prod && r'.refusedAt == r.refusedAt
    && r'.slotSize == r.slotSize && !r'.cons.CIdle?
    && r'.popped == r.popped + Pending(r')
    && (r'.cons.CTest? <==> r.cons.CLoadHead?)
    && (r'.cons.CTest? ==> r'.cons.pushesSeen == |r.pushed|)
    && (r'.cons == CDone(None) ==> r.cons.CTest? && r.cons.pushesSeen == |r.popped|)
  }

  ghost predicate ObserverEffect<C>(r: Ring<C>, r': Ring<C>) {
    && r'.pushed == r.pushed && r'.popped == r.popped
    && r'.prod == r.prod && r'.cons == r.cons
    && r'.refusedAt == r.refusedAt && r'.emptyAt == r.emptyAt && r'.slotSize == r.slotSize
  }

  lemma ProducerHasEffect<C>(r: Ring<C>)
    requires ProducerActive(r)
    ensures ProducerEffect(r, ProducerNext(r))
  {
  }

  lemma ConsumerHasEffect<C>(r: Ring<C>)
    requires ConsumerActive(r) && Facts(r)
    ensures ConsumerEffect(r, ConsumerNext(r))
  {
  }

  lemma ObserverHasEffect<C>(r: Ring<C>)
    ensures ObserverEffect(r, ObserverNext(r))
  {
  }

  lemma CaptureControl<P, E>(s: Pipe<P, E>, p: Ring<P>, capture: Capture)
    requires Control(s) && !s.captureDone && Facts(p)
    requires p.popped == s.pkt.popped && p.cons == s.pkt.cons && p.emptyAt == s.pkt.emptyAt
    requires p.slotSize == s.pkt.slotSize && (capture == Stopped ==> p.prod.PIdle?)
    ensures Control(s.(pkt := p, capture := capture, captureDone := capture == Stopped))
  {
  }

  lemma CaptureKeepsControl<P, E>(s: Pipe<P, E>, s': Pipe<P, E>)
    requires Control(s) && CaptureStep(s, s') && Facts(s'.pkt)
    ensures Control(s')
  {
    if ProducerActive(s.pkt) { ProducerHasEffect(s.pkt); }
    CaptureControl(s, s'.pkt, s'.capture);
  }

  lemma PopPacketControl<P, E>(s: Pipe<P, E>, p: Ring<P>, flag: bool)
    requires Control(s) && s.analysis == APop && ConsumerActive(s.pkt)
    requires ConsumerEffect(s.pkt, p) && Facts(p)
    requires flag == if s.pkt.cons.CLoadHead? then s.captureDone else s.captureDoneAtPop
    ensures Control(s.(pkt := p, captureDoneAtPop := flag))
  {
  }

  lemma PopEventControl<P, E>(s: Pipe<P, E>, e: Ring<E>, flag: bool)
    requires Control(s) && s.publish == UPop && ConsumerActive(s.evt)
    requires ConsumerEffect(s.evt, e) && Facts(e)
    requires flag == if s.evt.cons.CLoadHead? then s.analysisDone else s.analysisDoneAtPop
    ensures Control(s.(evt := e, analysisDoneAtPop := flag))
  {
  }

  lemma PushEventControl<P, E>(s: Pipe<P, E>, e: Ring<E>)
    requires Control(s) && s.analysis == APush && ProducerActive(s.evt)
    requires ProducerEffect(s.evt, e) && Facts(e)
    ensures Control(s.(evt := e))
  {
  }

  lemma MetricsControl<P, E>(s: Pipe<P, E>, p: Ring<P>, e: Ring<E>)
    requires Control(s) && ObserverEffect(s.pkt, p) && ObserverEffect(s.evt, e)
    ensures Control(s.(pkt := p, evt := e))
  {
  }

  lemma PopPacketKeepsControl<P, E>(s: Pipe<P, E>, s': Pipe<P, E>)
    requires Control(s) && s.analysis == APop && AnalysisStep(s, s') && Facts(s'.pkt) && Facts(s'.evt)
    ensures Control(s')
  {
    if ConsumerActive(s.pkt) {
      ConsumerHasEffect(s.pkt);
      PopPacketControl(s, s'.pkt, s'.captureDoneAtPop);
    } else {
      PopReturnKeepsControl(s, s');
    }
  }

  lemma PopReturnKeepsControl<P, E>(s: Pipe<P, E>, s': Pipe<P, E>)
    requires Control(s) && s.analysis == APop && !ConsumerActive(s.pkt) && AnalysisStep(s, s')
    ensures Control(s')
  {
    if s.pkt.cons == CDone(None) {
      FailedPopControl(s);
    } else {
      DeliverControl(s, s'.evt, s'.analysis, s'.offered);
    }
  }

  lemma FailedPopControl<P, E>(s: Pipe<P, E>)
    requires Control(s) && s.analysis == APop && s.pkt.cons == CDone(None)
    ensures Control(s.(pkt := s.pkt.(cons := CIdle), analysis := ACheck))
  {
  }

  lemma DeliverControl<P, E>(s: Pipe<P, E>, e: Ring<E>, a: Analysis, offered: seq<Item<E>>)
    requires Control(s) && s.analysis == APop && s.pkt.cons.CDone? && s.pkt.cons.result.Some?
    requires
      || (e == s.evt && a == ATop && offered == s.offered)
      || (e == s.evt.(prod := e.prod) && e.prod.PLoadHead? && a == APush && |offered| == |s.offered| + 1)
    ensures Control(s.(pkt := s.pkt.(cons := CIdle), analysed := s.analysed + [s.pkt.cons.result.value],
                       analysis := a, evt := e, offered := offered))
  {
  }

  lemma PushEventKeepsControl<P, E>(s: Pipe<P, E>, s': Pipe<P, E>)
    requires Control(s) && s.analysis == APush && AnalysisStep(s, s') && Facts(s'.pkt) && Facts(s'.evt)
    ensures Control(s')
  {
    if ProducerActive(s.evt) {
      ProducerHasEffect(s.evt);
      PushEventControl(s, s'.evt);
    }
  }

  lemma FlagStepKeepsControl<P, E>(s: Pipe<P, E>, s': Pipe<P, E>)
    requires Control(s) && AnalysisStep(s, s')
    requires s.analysis == ATop || s.analysis == ACheck || s.analysis == AExit
    ensures Control(s')
  {
    assert s'.evt == s.evt && s'.pkt.popped == s.pkt.popped;
  }

  lemma AnalysisKeepsControl<P, E>(s: Pipe<P, E>, s': Pipe<P, E>)
    requires Control(s) && AnalysisStep(s, s') && Facts(s'.pkt) && Facts(s'.evt)
    ensures Control(s')
  {
    match s.analysis
    case APop => PopPacketKeepsControl(s, s');
    case APush => PushEventKeepsControl(s, s');
    case ADone =>
    case _ => FlagStepKeepsControl(s, s');
  }

  lemma PopEventKeepsControl<P, E>(s: Pipe<P, E>, s': Pipe<P, E>)
    requires Control(s) && s.publish == UPop && PopEventStep(s, s') && Facts(s'.pkt) && Facts(s'.evt)
    ensures Control(s')
  {
    if ConsumerActive(s.evt) {
      ConsumerHasEffect(s.evt);
      PopEventControl(s, s'.evt, s'.analysisDoneAtPop);
    } else {
      PopEventReturns(s, s');
    }
  }

  lemma PopEventReturns<P, E>(s: Pipe<P, E>, s': Pipe<P, E>)
    requires Control(s) && s.publish == UPop && PopEventStep(s, s') && !ConsumerActive(s.evt)
    ensures Control(s')
  {
    if s.evt.cons == CDone(None) {
      NoEventControl(s);
    } else {
      TakeEventControl(s, s'.batchStart, s'.times);
    }
  }

  lemma NoEventControl<P, E>(s: Pipe<P, E>)
    requires Control(s) && s.publish == UPop && s.evt.cons == CDone(None)
    ensures Control(s.(evt := s.evt.(cons := CIdle), publish := UCheck))
  {
  }

  lemma TakeEventControl<P, E>(s: Pipe<P, E>, batchStart: int, times: seq<int>)
    requires Control(s) && s.publish == UPop && s.evt.cons.CDone? && s.evt.cons.result.Some?
    ensures Control(s.(evt := s.evt.(cons := CIdle), publish := UTop, batch := s.batch + [s.evt.cons.result.value],
                       batchStart := batchStart, times := times))
  {
  }

  lemma DecideKeepsControl<P, E>(s: Pipe<P, E>, s': Pipe<P, E>, now: int, drained: bool)
    requires Control(s) && s.publish == UDecide(now, drained) && DecideStep(s, s', now, drained)
    ensures Control(s')
  {
    if s'.publish == UCountBatch {
      AcceptedControl(s, s'.attempts, s'.sent);
    } else {
      RoundControl(s, s'.publish, s'.attempts);
    }
  }

  lemma AcceptedControl<P, E>(s: Pipe<P, E>, attempts: seq<seq<Item<E>>>, sent: seq<seq<Item<E>>>)
    requires Control(s) && s.publish.UDecide? && s.batch != []
    ensures Control(s.(publish := UCountBatch, attempts := attempts, sent := sent, delivered := s.delivered + s.batch))
  {
  }

  lemma RoundControl<P, E>(s: Pipe<P, E>, publish: Publish, attempts: seq<seq<Item<E>>>)
    requires Control(s) && s.publish.UDecide?
    requires || publish == UTop
             || (publish == UDone(Refused) && s.publish.drained && s.batch != [])
             || (publish == UDone(Drained) && s.publish.drained && s.batch == [])
    ensures Control(s.(publish := publish, attempts := attempts))
  {
  }

  lemma CountKeepsControl<P, E>(s: Pipe<P, E>, s': Pipe<P, E>)
    requires Control(s) && (s.publish == UCountBatch || s.publish == UCountEvents) && PublishStep(s, s')
    ensures Control(s')
  {
    assert s'.pkt == s.pkt && s'.evt == s.evt;
  }

  lemma PublishKeepsCounters<P, E>(s: Pipe<P, E>, s': Pipe<P, E>)
    requires Counters(s) && Batches(s) && PublishStep(s, s')
    ensures Counters(s')
  {
    match s.publish
    case UDecide(now, drained) => DecideKeepsCounters(s, s', now, drained);
    case UCountBatch => CountBatchKeepsCounters(s, s');
    case UCountEvents => CountEventsKeepsCounters(s, s');
    case UPop => PopKeepsCounters(s, s');
    case UDone(_) =>
    case _ => LoopKeepsCounters(s, s');
  }

  lemma DecideKeepsCounters<P, E>(s: Pipe<P, E>, s': Pipe<P, E>, now: int, drained: bool)
    requires Counters(s) && Batches(s) && s.publish == UDecide(now, drained) && DecideStep(s, s', now, drained)
    ensures Counters(s')
  {
    if s'.publish == UCountBatch {
      AcceptedKeepsCounters(s, s');
    } else {
      assert s'.sent == s.sent && s'.delivered == s.delivered;
    }
  }

  lemma AcceptedKeepsCounters<P, E>(s: Pipe<P, E>, s': Pipe<P, E>)
    requires Counters(s) && Batches(s) && s.publish.UDecide? && s.batch != [] && AcceptedStep(s, s')
    ensures Counters(s')
  {
    assert s'.sent[..|s'.sent| - 1] == s.sent;
  }

  lemma CountBatchKeepsCounters<P, E>(s: Pipe<P, E>, s': Pipe<P, E>)
    requires Counters(s) && s.publish == UCountBatch
    requires s' == s.(publish := UCountEvents, batchesSent := WrapInc(s.batchesSent))
    ensures Counters(s')
  {
    WrapIncrement(|s.sent| - 1);
  }

  lemma CountEventsKeepsCounters<P, E>(s: Pipe<P, E>, s': Pipe<P, E>)
    requires Counters(s) && s.publish == UCountEvents && CountEventsStep(s, s')
    ensures Counters(s')
  {
    AddWrapped(s.counted, |s.batch|);
  }

  lemma PopKeepsCounters<P, E>(s: Pipe<P, E>, s': Pipe<P, E>)
    requires Counters(s) && PopEventStep(s, s') && s.publish == UPop
    ensures Counters(s')
  {
    if ConsumerActive(s.evt) {
      assert s'.sent == s.sent && s'.publish == UPop;
    } else {
      assert s'.sent == s.sent && (s'.publish == UCheck || s'.publish == UTop);
    }
  }

  lemma LoopKeepsCounters<P, E>(s: Pipe<P, E>, s': Pipe<P, E>)
    requires Counters(s) && PublishStep(s, s')
    requires s.publish == UTop || s.publish == UCheck || s.publish.ULoad?
    ensures Counters(s')
  {
    assert s'.sent == s.sent && s'.delivered == s.delivered && s'.counted == s.counted;
  }

  // The part of the state only the publication thread writes.
  ghost predicate SameBatching<P, E>(s: Pipe<P, E>, s': Pipe<P, E>) {
    && s'.sent == s.sent && s'.delivered == s.delivered && s'.counted == s.counted
    && s'.publish == s.publish && s'.batch == s.batch && s'.batchSize == s.batchSize
    && s'.batchesSent == s.batchesSent && s'.eventsSent == s.eventsSent
  }

  lemma CaptureKeepsBatching<P, E>(s: Pipe<P, E>, s': Pipe<P, E>)
    requires CaptureStep(s, s')
    ensures SameBatching(s, s')
  {
  }

  lemma AnalysisKeepsBatching<P, E>(s: Pipe<P, E>, s': Pipe<P, E>)
    requires AnalysisStep(s, s')
    ensures SameBatching(s, s')
  {
    match s.analysis
    case APop => PopPacketKeepsBatching(s, s');
    case APush => PushEventKeepsBatching(s, s');
    case _ =>
  }

  lemma PopPacketKeepsBatching<P, E>(s: Pipe<P, E>, s': Pipe<P, E>)
    requires s.analysis == APop && AnalysisStep(s, s')
    ensures SameBatching(s, s')
  {
    if ConsumerActive(s.pkt) {
      assert s'.publish == s.publish;
    } else if s.pkt.cons == CDone(None) {
      assert s'.publish == s.publish;
    }
  }

  lemma PushEventKeepsBatching<P, E>(s: Pipe<P, E>, s': Pipe<P, E>)
    requires s.analysis == APush && AnalysisStep(s, s')
    ensures SameBatching(s, s')
  {
    if ProducerActive(s.evt) {
      assert s'.publish == s.publish;
    }
  }

  lemma SameBatchingKeepsCounters<P, E>(s: Pipe<P, E>, s': Pipe<P, E>)
    requires Counters(s) && SameBatching(s, s')
    ensures Counters(s')
  {
  }

  lemma CountersKept<P, E>(s: Pipe<P, E>, s': Pipe<P, E>)
    requires Counters(s) && Batches(s) && Next(s, s')
    ensures Counters(s')
  {
    if PublishStep(s, s') {
      PublishKeepsCounters(s, s');
    } else {
      if CaptureStep(s, s') { CaptureKeepsBatching(s, s'); }
      if AnalysisStep(s, s') { AnalysisKeepsBatching(s, s'); }
      SameBatchingKeepsCounters(s, s');
    }
  }

  lemma PublishKeepsControl<P, E>(s: Pipe<P, E>, s': Pipe<P, E>)
    requires Control(s) && PublishStep(s, s') && Facts(s'.pkt) && Facts(s'.evt)
    ensures Control(s')
  {
    match s.publish
    case UPop => PopEventKeepsControl(s, s');
    case UDecide(now, drained) => DecideKeepsControl(s, s', now, drained);
    case UCountBatch => CountKeepsControl(s, s');
    case UCountEvents => CountKeepsControl(s, s');
    case UDone(_) =>
    case _ => LoopKeepsControl(s, s');
  }

  lemma LoopKeepsControl<P, E>(s: Pipe<P, E>, s': Pipe<P, E>)
    requires Control(s) && PublishStep(s, s')
    requires s.publish == UTop || s.publish == UCheck || s.publish.ULoad?
    ensures Control(s')
  {
    assert s'.pkt == s.pkt && s'.evt.popped == s.evt.popped;
  }

  lemma MetricsKeepsControl<P, E>(s: Pipe<P, E>, s': Pipe<P, E>)
    requires Control(s) && MetricsStep(s, s')
    ensures Control(s')
  {
    ObserverHasEffect(s.pkt);
    ObserverHasEffect(s.evt);
    MetricsControl(s, s'.pkt, s'.evt);
  }

  lemma NextKeepsInv<P, E>(s: Pipe<P, E>, s': Pipe<P, E>)
    requires Inv(s) && Next(s, s')
    ensures Inv(s')
  {
    RingsKeepInv(s, s');
    NextKeepsControl(s, s');
    CountersKept(s, s');
  }

  lemma NextKeepsControl<P, E>(s: Pipe<P, E>, s': Pipe<P, E>)
    requires Control(s) && Next(s, s') && Facts(s'.pkt) && Facts(s'.evt)
    ensures Control(s')
  {
    if CaptureStep(s, s') {
      CaptureKeepsControl(s, s');
    } else if AnalysisStep(s, s') {
      AnalysisKeepsControl(s, s');
    } else if PublishStep(s, s') {
      PublishKeepsControl(s, s');
    } else {
      MetricsKeepsControl(s, s');
    }
  }
}
