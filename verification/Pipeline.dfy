/** The scenario of `test/channel.cpp`: a producer, a mapper and a collector joined by two bounded
    single-producer single-consumer channels, with `close` passed downstream.  Each thread is the loop of the
    test; each of its steps is a call into a channel or the return from one.  */
module Pipelines {
  import opened Channels

  datatype Job<!T, !U> = Job(input: seq<T>, f: T -> U, max1: nat, max2: nat)

  datatype ProducerPc = ProducerIdle | Emplacing(c: nat) | ProducerClosing(c: nat) | ProducerFinished

  datatype MapperPc<U> =
    | MapperIdle | Popping(c: nat) | Holding(y: U) | Pushing(c: nat)
    | MapperDrained | MapperClosing(c: nat) | MapperFinished

  datatype CollectorPc = CollectorIdle | Collecting(c: nat) | CollectorFinished

  /** `sent` and `mapped` count the emplaces of the producer and of the mapper that have returned. */
  datatype Pipe<T, U> = Pipe(
    ch1: State<T>, ch2: State<U>,
    sent: nat, producer: ProducerPc,
    mapped: nat, mapper: MapperPc<U>,
    result: seq<U>, collector: CollectorPc)

  datatype PipeStep<T, U> =
    | ProducerStep | MapperStep | CollectorStep
    | InFirst(step1: Step<T>) | InSecond(step2: Step<U>)

  function SpscConfig(max: nat): Config {
    Config(true, max, true, true, true, true)
  }

  function Start<T, U>(): Pipe<T, U> {
    Pipe(Init(), Init(), 0, ProducerIdle, 0, MapperIdle, [], CollectorIdle)
  }

  /** A thread enters a call. */
  function Called<T>(s: State<T>, call: Call<T>): State<T> {
    s.(calls := s.calls + [Entered(call)])
  }

  predicate Returned<T>(s: State<T>, c: nat) {
    c < |s.calls| && RoleOf(s.calls[c]) == Finished
  }

  predicate ProducerEnabled<T, U>(p: Pipe<T, U>) {
    match p.producer
    case ProducerIdle => true
    case Emplacing(c) => Returned(p.ch1, c)
    case ProducerClosing(c) => Returned(p.ch1, c)
    case ProducerFinished => false
  }

  function ProducerMoves<T, U>(job: Job<T, U>, p: Pipe<T, U>): Pipe<T, U>
    requires ProducerEnabled(p)
  {
    match p.producer
    case ProducerIdle =>
      if p.sent < |job.input| then
        p.(ch1 := Called(p.ch1, Emplace(job.input[p.sent])), producer := Emplacing(|p.ch1.calls|))
      else
        p.(ch1 := Called(p.ch1, Close), producer := ProducerClosing(|p.ch1.calls|))
    case Emplacing(c) => p.(sent := p.sent + 1, producer := ProducerIdle)
    case ProducerClosing(c) => p.(producer := ProducerFinished)
  }

  predicate MapperEnabled<T, U>(p: Pipe<T, U>) {
    match p.mapper
    case MapperIdle => true
    case Popping(c) => c < |p.ch1.calls| && p.ch1.calls[c].PopDone?
    case Holding(_) => true
    case Pushing(c) => Returned(p.ch2, c)
    case MapperDrained => true
    case MapperClosing(c) => Returned(p.ch2, c)
    case MapperFinished => false
  }

  function MapperMoves<T, U>(job: Job<T, U>, p: Pipe<T, U>): Pipe<T, U>
    requires MapperEnabled(p)
  {
    match p.mapper
    case MapperIdle => p.(ch1 := Called(p.ch1, Pop), mapper := Popping(|p.ch1.calls|))
    case Popping(c) =>
      (match p.ch1.calls[c].result
       case Some(x) => p.(mapper := Holding(job.f(x)))
       case None => p.(mapper := MapperDrained))
    case Holding(y) => p.(ch2 := Called(p.ch2, Emplace(y)), mapper := Pushing(|p.ch2.calls|))
    case Pushing(c) => p.(mapped := p.mapped + 1, mapper := MapperIdle)
    case MapperDrained => p.(ch2 := Called(p.ch2, Close), mapper := MapperClosing(|p.ch2.calls|))
    case MapperClosing(c) => p.(mapper := MapperFinished)
  }

  predicate CollectorEnabled<T, U>(p: Pipe<T, U>) {
    match p.collector
    case CollectorIdle => true
    case Collecting(c) => c < |p.ch2.calls| && p.ch2.calls[c].PopDone?
    case CollectorFinished => false
  }

  function CollectorMoves<T, U>(p: Pipe<T, U>): Pipe<T, U>
    requires CollectorEnabled(p)
  {
    match p.collector
    case CollectorIdle => p.(ch2 := Called(p.ch2, Pop), collector := Collecting(|p.ch2.calls|))
    case Collecting(c) =>
      match p.ch2.calls[c].result
      case Some(y) => p.(result := p.result + [y], collector := CollectorIdle)
      case None => p.(collector := CollectorFinished)
  }

  predicate PipeEnabled<T, U>(job: Job<T, U>, p: Pipe<T, U>, step: PipeStep<T, U>) {
    match step
    case ProducerStep => ProducerEnabled(p)
    case MapperStep => MapperEnabled(p)
    case CollectorStep => CollectorEnabled(p)
    case InFirst(st) => !st.Begin? && Enabled(SpscConfig(job.max1), p.ch1, st)
    case InSecond(st) => !st.Begin? && Enabled(SpscConfig(job.max2), p.ch2, st)
  }

  function PipeApply<T, U>(job: Job<T, U>, p: Pipe<T, U>, step: PipeStep<T, U>): Pipe<T, U>
    requires PipeEnabled(job, p, step)
  {
    match step
    case ProducerStep => ProducerMoves(job, p)
    case MapperStep => MapperMoves(job, p)
    case CollectorStep => CollectorMoves(p)
    case InFirst(st) => p.(ch1 := Apply(SpscConfig(job.max1), p.ch1, st))
    case InSecond(st) => p.(ch2 := Apply(SpscConfig(job.max2), p.ch2, st))
  }

  predicate PipeLegal<T, U>(job: Job<T, U>, p: Pipe<T, U>, steps: seq<PipeStep<T, U>>)
    decreases |steps|
  {
    steps == [] || (PipeEnabled(job, p, steps[0]) && PipeLegal(job, PipeApply(job, p, steps[0]), steps[1..]))
  }

  function PipeExec<T, U>(job: Job<T, U>, p: Pipe<T, U>, steps: seq<PipeStep<T, U>>): Pipe<T, U>
    requires PipeLegal(job, p, steps)
    decreases |steps|
  {
    if steps == [] then p else PipeExec(job, PipeApply(job, p, steps[0]), steps[1..])
  }

  predicate SpuriousStep<T, U>(step: PipeStep<T, U>) {
    (step.InFirst? && step.step1.Spurious?) || (step.InSecond? && step.step2.Spurious?)
  }

  function MapSeq<T, U>(f: T -> U, xs: seq<T>): seq<U> {
    seq(|xs|, i requires 0 <= i < |xs| => f(xs[i]))
  }
}

/** The pipeline always ends, with the mapped input collected in order. */
module PipelineProofs {
  import opened Options
  import opened Arithmetic
  import opened Measures
  import opened Channels
  import opened ChannelSafety
  import opened ChannelFifo
  import opened ChannelRuns
  import opened ChannelCalls
  import opened Pipelines

  // ---- One channel between two threads

  /** The only unfinished calls are those of the sending and of the receiving thread. */
  ghost predicate Link<T>(s: State<T>, sender: Option<nat>, receiver: Option<nat>) {
    && (sender.Some? ==> sender.value < |s.calls| && CallOf(s.calls[sender.value]) !in {Call<T>.Pop, Call<T>.Clear})
    && (receiver.Some? ==> receiver.value < |s.calls| && CallOf(s.calls[receiver.value]) == Call<T>.Pop)
    && forall c | 0 <= c < |s.calls| && RoleOf(s.calls[c]) != Finished :: sender == Some(c) || receiver == Some(c)
  }

  ghost predicate ChannelInv<T>(max: nat, s: State<T>) {
    Fifo(s) && WakeInv(SpscConfig(max), s)
  }

  lemma NobodyReceives<T>(s: State<T>, sender: Option<nat>)
    requires Link(s, sender, None)
    ensures Num(s.calls, AtPop) == Num(s.calls, ConsumerAsleep) == Num(s.calls, ConsumerWoken)
            == Num(s.calls, PopNotifying) == 0
  {
    hide Num;
    NumZero(s.calls, AtPop);
    NumZero(s.calls, ConsumerAsleep);
    NumZero(s.calls, ConsumerWoken);
    NumZero(s.calls, PopNotifying);
  }

  lemma NobodySends<T>(s: State<T>, receiver: Option<nat>)
    requires Link(s, None, receiver)
    ensures Num(s.calls, AtEmplace) == Num(s.calls, ProducerAsleep) == Num(s.calls, ProducerWoken)
            == Num(s.calls, EmplaceNotifying) == 0
  {
    hide Num;
    NumZero(s.calls, AtEmplace);
    NumZero(s.calls, ProducerAsleep);
    NumZero(s.calls, ProducerWoken);
    NumZero(s.calls, EmplaceNotifying);
  }

  lemma BeginKeepsChannel<T>(max: nat, s: State<T>, sender: Option<nat>, receiver: Option<nat>, call: Call<T>)
    requires max > 0 && ChannelInv(max, s) && Link(s, sender, receiver)
    requires call != Call<T>.Clear
    requires if call == Call<T>.Pop then receiver == None else sender == None
    ensures ChannelInv(max, Called(s, call))
    ensures if call == Call<T>.Pop then Link(Called(s, call), sender, Some(|s.calls|))
                                   else Link(Called(s, call), Some(|s.calls|), receiver)
  {
    hide Fifo, WakeInv, Num;
    if call == Call<T>.Pop {
      NobodyReceives(s, sender);
    } else {
      NobodySends(s, receiver);
    }
    assert Called(s, call) == Apply(SpscConfig(max), s, Begin(call));
    StepKeepsFifo(SpscConfig(max), s, Begin(call));
    StepKeepsWakeInv(SpscConfig(max), s, Begin(call));
  }

  lemma StepKeepsChannel<T>(max: nat, s: State<T>, sender: Option<nat>, receiver: Option<nat>, step: Step<T>)
    requires max > 0 && ChannelInv(max, s) && Link(s, sender, receiver)
    requires Enabled(SpscConfig(max), s, step) && !step.Begin?
    ensures ChannelInv(max, Apply(SpscConfig(max), s, step))
    ensures Link(Apply(SpscConfig(max), s, step), sender, receiver)
  {
    hide Fifo, WakeInv, Num, Enabled, Apply;
    StepKeepsCalls(SpscConfig(max), s, step);
    StepKeepsFifo(SpscConfig(max), s, step);
    StepKeepsWakeInv(SpscConfig(max), s, step);
  }

  // ---- The invariant

  function SenderOf1(producer: ProducerPc): Option<nat> {
    match producer
    case Emplacing(c) => Some(c)
    case ProducerClosing(c) => Some(c)
    case _ => None
  }

  function ReceiverOf1<U>(mapper: MapperPc<U>): Option<nat> {
    if mapper.Popping? then Some(mapper.c) else None
  }

  function SenderOf2<U>(mapper: MapperPc<U>): Option<nat> {
    match mapper
    case Pushing(c) => Some(c)
    case MapperClosing(c) => Some(c)
    case _ => None
  }

  function ReceiverOf2(collector: CollectorPc): Option<nat> {
    if collector.Collecting? then Some(collector.c) else None
  }

  /** The first channel lies between the producer and the mapper, the second between the mapper and the collector. */
  ghost predicate FirstLinked<T, U>(job: Job<T, U>, ch1: State<T>, producer: ProducerPc, mapper: MapperPc<U>) {
    job.max1 > 0 && ChannelInv(job.max1, ch1) && Link(ch1, SenderOf1(producer), ReceiverOf1(mapper))
  }

  ghost predicate SecondLinked<T, U>(job: Job<T, U>, ch2: State<U>, mapper: MapperPc<U>, collector: CollectorPc) {
    job.max2 > 0 && ChannelInv(job.max2, ch2) && Link(ch2, SenderOf2(mapper), ReceiverOf2(collector))
  }

  function AcceptedBy<T>(s: State<T>, c: nat): nat
    requires c < |s.calls|
  {
    if OutcomeOf(s.calls[c]).Accepted? then 1 else 0
  }

  function TakenBy<T>(s: State<T>, c: nat): nat
    requires c < |s.calls|
  {
    if OutcomeOf(s.calls[c]).Took? then 1 else 0
  }

  /** What the producer has done to the first channel. */
  ghost predicate ProducerInv<T>(input: seq<T>, ch1: State<T>, sent: nat, producer: ProducerPc) {
    && sent <= |input|
    && |ch1.log| <= |input|
    && (forall k | 0 <= k < |ch1.log| :: ch1.log[k].item == input[k])
    && match producer
       case ProducerIdle => |ch1.log| == sent && !ch1.closed
       case Emplacing(c) =>
         && c < |ch1.calls| && sent < |input| && CallOf(ch1.calls[c]) == Emplace(input[sent])
         && |ch1.log| == sent + AcceptedBy(ch1, c) && !ch1.closed
       case ProducerClosing(c) =>
         && c < |ch1.calls| && CallOf(ch1.calls[c]) == Close && |ch1.log| == sent == |input|
         && (ch1.closed <==> !ch1.calls[c].CloseEntry?)
       case ProducerFinished => |ch1.log| == sent == |input| && ch1.closed
  }

  /** What the mapper has taken from the first channel and done to the second. */
  ghost predicate MapperInv<T, U>(job: Job<T, U>, ch1: State<T>, ch2: State<U>, mapped: nat, mapper: MapperPc<U>) {
    && mapped <= |job.input|
    && |ch2.log| <= |job.input|
    && (forall k | 0 <= k < |ch2.log| :: ch2.log[k].item == job.f(job.input[k]))
    && match mapper
       case MapperIdle => |ch1.removed| == mapped == |ch2.log| && !ch2.closed
       case Popping(c) =>
         && c < |ch1.calls| && |ch2.log| == mapped && |ch1.removed| == mapped + TakenBy(ch1, c) && !ch2.closed
         && (OutcomeOf(ch1.calls[c]).Took? ==>
               mapped < |ch1.log| && OutcomeOf(ch1.calls[c]).item == ch1.log[mapped].item)
       case Holding(y) =>
         && |ch2.log| == mapped < |job.input| && |ch1.removed| == mapped + 1 && !ch2.closed
         && y == job.f(job.input[mapped])
       case Pushing(c) =>
         && c < |ch2.calls| && |ch1.removed| == mapped + 1 && mapped < |job.input| && !ch2.closed
         && |ch2.log| == mapped + AcceptedBy(ch2, c)
         && CallOf(ch2.calls[c]) == Emplace(job.f(job.input[mapped]))
       case MapperDrained =>
         |ch1.removed| == mapped == |ch2.log| && ch1.closed && ch1.queue == [] && !ch2.closed
       case MapperClosing(c) =>
         && c < |ch2.calls| && |ch1.removed| == mapped == |ch2.log| && ch1.closed && ch1.queue == []
         && CallOf(ch2.calls[c]) == Close && (ch2.closed <==> !ch2.calls[c].CloseEntry?)
       case MapperFinished =>
         |ch1.removed| == mapped == |ch2.log| && ch1.closed && ch1.queue == [] && ch2.closed
  }

  ghost predicate CollectorInv<T, U>(job: Job<T, U>, ch2: State<U>, result: seq<U>, collector: CollectorPc) {
    && |ch2.log| <= |job.input| && |result| <= |job.input|
    && (forall k | 0 <= k < |result| :: result[k] == job.f(job.input[k]))
    && match collector
       case CollectorIdle => |ch2.removed| == |result|
       case Collecting(c) =>
         && c < |ch2.calls| && |ch2.removed| == |result| + TakenBy(ch2, c)
         && (OutcomeOf(ch2.calls[c]).Took? ==>
               |result| < |ch2.log| && OutcomeOf(ch2.calls[c]).item == ch2.log[|result|].item)
       case CollectorFinished => |ch2.removed| == |result| && ch2.closed && ch2.queue == []
  }

  ghost predicate PipeInv<T, U>(job: Job<T, U>, p: Pipe<T, U>) {
    && FirstLinked(job, p.ch1, p.producer, p.mapper)
    && SecondLinked(job, p.ch2, p.mapper, p.collector)
    && ProducerInv(job.input, p.ch1, p.sent, p.producer)
    && MapperInv(job, p.ch1, p.ch2, p.mapped, p.mapper)
    && CollectorInv(job, p.ch2, p.result, p.collector)
  }

  lemma InitChannelInv<T>(max: nat)
    requires max > 0
    ensures ChannelInv<T>(max, Init()) && Link<T>(Init(), None, None)
  {}

  lemma StartInv<T, U>(job: Job<T, U>)
    requires job.max1 > 0 && job.max2 > 0
    ensures PipeInv(job, Start())
  {
    hide ChannelInv;
    InitChannelInv<T>(job.max1);
    InitChannelInv<U>(job.max2);
  }

  // ---- Steps inside a channel

  /** What a critical section does to the history of a linked channel. */
  ghost predicate SectionEffect<T>(s: State<T>, t: State<T>, c: nat)
    requires c < |s.calls| == |t.calls|
  {
    match CallOf(s.calls[c])
    case Emplace(x) =>
      && t.removed == s.removed && t.closed == s.closed && (s.closed ==> t.queue == s.queue)
      && (if OutcomeOf(t.calls[c]).Accepted? then t.log == s.log + [Entry(x, c)] else t.log == s.log)
    case Pop =>
      && t.log == s.log && t.closed == s.closed && (s.queue == [] ==> t.queue == [])
      && (if OutcomeOf(t.calls[c]).Took?
          then |t.removed| == |s.removed| + 1 && |s.removed| < |s.log|
               && OutcomeOf(t.calls[c]).item == s.log[|s.removed|].item
          else t.removed == s.removed)
    case Clear => true
    case Close =>
      t.log == s.log && t.removed == s.removed && t.queue == s.queue && t.closed && !t.calls[c].CloseEntry?
  }

  lemma EnterHasEffect<T>(cfg: Config, s: State<T>, c: nat)
    requires Fifo(s) && Enabled(cfg, s, Enter(c))
    ensures OutcomeOf(s.calls[c]) == Nothing
    ensures |Apply(cfg, s, Enter(c)).calls| == |s.calls|
    ensures SectionEffect(s, Apply(cfg, s, Enter(c)), c)
  {}

  /** A channel step as the threads see it: at most one call decides something. */
  ghost predicate SeenEffect<T>(s: State<T>, t: State<T>) {
    && |t.calls| == |s.calls|
    && (forall d | 0 <= d < |s.calls| :: CallOf(t.calls[d]) == CallOf(s.calls[d]))
    && (|| (&& t.log == s.log && t.removed == s.removed && t.closed == s.closed && t.queue == s.queue
            && forall d | 0 <= d < |s.calls| ::
                 OutcomeOf(t.calls[d]) == OutcomeOf(s.calls[d]) && (t.calls[d].CloseEntry? <==> s.calls[d].CloseEntry?))
        || (exists c :: Decides(s, t, c)))
  }

  ghost predicate Decides<T>(s: State<T>, t: State<T>, c: int)
    requires |t.calls| == |s.calls|
  {
    && 0 <= c < |s.calls|
    && RoleOf(s.calls[c]) != Finished && OutcomeOf(s.calls[c]) == Nothing
    && SectionEffect(s, t, c)
    && forall d | 0 <= d < |s.calls| && d != c :: t.calls[d] == s.calls[d]
  }

  lemma StepSeen<T>(cfg: Config, s: State<T>, step: Step<T>)
    requires Fifo(s) && Enabled(cfg, s, step) && !step.Begin?
    ensures SeenEffect(s, Apply(cfg, s, step))
  {
    hide SectionEffect, Fifo;
    var t := Apply(cfg, s, step);
    StepKeepsCalls(cfg, s, step);
    if step.Enter? {
      EnterHasEffect(cfg, s, step.c);
      OnlyCallerMoves(cfg, s, step.c);
      assert Decides(s, t, step.c);
    }
  }

  lemma OnlyCallerMoves<T>(cfg: Config, s: State<T>, c: nat)
    requires Enabled(cfg, s, Enter(c))
    ensures |Apply(cfg, s, Enter(c)).calls| == |s.calls|
    ensures forall d | 0 <= d < |s.calls| && d != c :: Apply(cfg, s, Enter(c)).calls[d] == s.calls[d]
  {}

  lemma FirstSeenByProducer<T>(input: seq<T>, s: State<T>, sent: nat, producer: ProducerPc, t: State<T>,
                               receiver: Option<nat>)
    requires Link(s, SenderOf1(producer), receiver)
    requires ProducerInv(input, s, sent, producer) && SeenEffect(s, t)
    ensures ProducerInv(input, t, sent, producer)
  {}

  /** While nothing is decided about the mapper's own `pop`, the first channel may change under it. */
  lemma MapperKeepsFirst<T, U>(job: Job<T, U>, p: Pipe<T, U>, t: State<T>)
    requires |p.ch1.log| <= |t.log|
    requires forall k | 0 <= k < |p.ch1.log| :: t.log[k] == p.ch1.log[k]
    requires t.removed == p.ch1.removed && |t.calls| == |p.ch1.calls|
    requires p.ch1.closed ==> t.closed && t.queue == p.ch1.queue
    requires p.mapper.Popping? && p.mapper.c < |t.calls| ==>
               OutcomeOf(t.calls[p.mapper.c]) == OutcomeOf(p.ch1.calls[p.mapper.c])
    requires MapperInv(job, p.ch1, p.ch2, p.mapped, p.mapper)
    ensures MapperInv(job, t, p.ch2, p.mapped, p.mapper)
  {}

  lemma MapperPops<T, U>(job: Job<T, U>, p: Pipe<T, U>, t: State<T>, c: nat)
    requires p.mapper == Popping(c) && c < |p.ch1.calls| == |t.calls|
    requires t.log == p.ch1.log
    requires OutcomeOf(p.ch1.calls[c]) == Nothing
    requires if OutcomeOf(t.calls[c]).Took?
             then |t.removed| == |p.ch1.removed| + 1 && |p.ch1.removed| < |p.ch1.log|
                  && OutcomeOf(t.calls[c]).item == p.ch1.log[|p.ch1.removed|].item
             else t.removed == p.ch1.removed
    requires MapperInv(job, p.ch1, p.ch2, p.mapped, p.mapper)
    ensures MapperInv(job, t, p.ch2, p.mapped, p.mapper)
  {}

  lemma FirstSeenByMapper<T, U>(job: Job<T, U>, p: Pipe<T, U>, t: State<T>)
    requires Link(p.ch1, SenderOf1(p.producer), ReceiverOf1(p.mapper))
    requires MapperInv(job, p.ch1, p.ch2, p.mapped, p.mapper) && SeenEffect(p.ch1, t)
    ensures MapperInv(job, t, p.ch2, p.mapped, p.mapper)
  {
    assert p.mapper.Popping? ==> p.mapper.c < |p.ch1.calls|;
    hide MapperInv;
    if c :| Decides(p.ch1, t, c) {
      assert SenderOf1(p.producer) == Some(c) || ReceiverOf1(p.mapper) == Some(c);
      match CallOf(p.ch1.calls[c]) {
        case Pop => MapperPops(job, p, t, c);
        case Emplace(x) => MapperKeepsFirst(job, p, t);
        case Close => MapperKeepsFirst(job, p, t);
      }
    } else {
      MapperKeepsFirst(job, p, t);
    }
  }

  lemma SecondSeenByMapper<T, U>(job: Job<T, U>, p: Pipe<T, U>, t: State<U>)
    requires Link(p.ch2, SenderOf2(p.mapper), ReceiverOf2(p.collector))
    requires MapperInv(job, p.ch1, p.ch2, p.mapped, p.mapper) && SeenEffect(p.ch2, t)
    ensures MapperInv(job, p.ch1, t, p.mapped, p.mapper)
  {}

  lemma CollectorKeepsSecond<T, U>(job: Job<T, U>, p: Pipe<T, U>, t: State<U>)
    requires |p.ch2.log| <= |t.log| <= |job.input|
    requires forall k | 0 <= k < |p.ch2.log| :: t.log[k] == p.ch2.log[k]
    requires t.removed == p.ch2.removed && |t.calls| == |p.ch2.calls|
    requires p.ch2.closed ==> t.closed && t.queue == p.ch2.queue
    requires p.collector.Collecting? && p.collector.c < |t.calls| ==>
               OutcomeOf(t.calls[p.collector.c]) == OutcomeOf(p.ch2.calls[p.collector.c])
    requires CollectorInv(job, p.ch2, p.result, p.collector)
    ensures CollectorInv(job, t, p.result, p.collector)
  {}

  lemma CollectorPops<T, U>(job: Job<T, U>, p: Pipe<T, U>, t: State<U>, c: nat)
    requires p.collector == Collecting(c) && c < |p.ch2.calls| == |t.calls|
    requires t.log == p.ch2.log
    requires OutcomeOf(p.ch2.calls[c]) == Nothing
    requires if OutcomeOf(t.calls[c]).Took?
             then |t.removed| == |p.ch2.removed| + 1 && |p.ch2.removed| < |p.ch2.log|
                  && OutcomeOf(t.calls[c]).item == p.ch2.log[|p.ch2.removed|].item
             else t.removed == p.ch2.removed
    requires CollectorInv(job, p.ch2, p.result, p.collector)
    ensures CollectorInv(job, t, p.result, p.collector)
  {}

  lemma SecondSeenByCollector<T, U>(job: Job<T, U>, p: Pipe<T, U>, t: State<U>)
    requires Link(p.ch2, SenderOf2(p.mapper), ReceiverOf2(p.collector)) && |t.log| <= |job.input|
    requires CollectorInv(job, p.ch2, p.result, p.collector) && SeenEffect(p.ch2, t)
    ensures CollectorInv(job, t, p.result, p.collector)
  {
    assert p.collector.Collecting? ==> p.collector.c < |p.ch2.calls|;
    hide CollectorInv;
    if c :| Decides(p.ch2, t, c) {
      assert SenderOf2(p.mapper) == Some(c) || ReceiverOf2(p.collector) == Some(c);
      match CallOf(p.ch2.calls[c]) {
        case Pop => CollectorPops(job, p, t, c);
        case Emplace(x) => CollectorKeepsSecond(job, p, t);
        case Close => CollectorKeepsSecond(job, p, t);
      }
    } else {
      CollectorKeepsSecond(job, p, t);
    }
  }

  lemma FirstKeepsInv<T, U>(job: Job<T, U>, p: Pipe<T, U>, step: Step<T>)
    requires PipeInv(job, p) && PipeEnabled(job, p, InFirst(step))
    ensures PipeInv(job, PipeApply(job, p, InFirst(step)))
  {
    hide Enabled, Apply, Link, Fifo, WakeInv, SeenEffect, ProducerInv, MapperInv, CollectorInv, SecondLinked;
    var t := Apply(SpscConfig(job.max1), p.ch1, step);
    StepKeepsChannel(job.max1, p.ch1, SenderOf1(p.producer), ReceiverOf1(p.mapper), step);
    StepSeen(SpscConfig(job.max1), p.ch1, step);
    FirstSeenByProducer(job.input, p.ch1, p.sent, p.producer, t, ReceiverOf1(p.mapper));
    FirstSeenByMapper(job, p, t);
  }

  lemma SecondKeepsInv<T, U>(job: Job<T, U>, p: Pipe<T, U>, step: Step<U>)
    requires PipeInv(job, p) && PipeEnabled(job, p, InSecond(step))
    ensures PipeInv(job, PipeApply(job, p, InSecond(step)))
  {
    hide Enabled, Apply, Link, Fifo, WakeInv, SeenEffect, ProducerInv, CollectorInv, FirstLinked;
    var t := Apply(SpscConfig(job.max2), p.ch2, step);
    StepKeepsChannel(job.max2, p.ch2, SenderOf2(p.mapper), ReceiverOf2(p.collector), step);
    StepSeen(SpscConfig(job.max2), p.ch2, step);
    SecondSeenByMapper(job, p, t);
    assert |t.log| <= |job.input|;
    hide MapperInv;
    SecondSeenByCollector(job, p, t);
  }

  // ---- Calls that a thread makes

  lemma ProducerOverlooksCall<T>(input: seq<T>, s: State<T>, sent: nat, producer: ProducerPc, call: Call<T>)
    requires ProducerInv(input, s, sent, producer)
    ensures ProducerInv(input, Called(s, call), sent, producer)
  {}

  lemma MapperOverlooksFirst<T, U>(job: Job<T, U>, p: Pipe<T, U>, call: Call<T>)
    requires MapperInv(job, p.ch1, p.ch2, p.mapped, p.mapper)
    ensures MapperInv(job, Called(p.ch1, call), p.ch2, p.mapped, p.mapper)
  {}

  lemma MapperOverlooksSecond<T, U>(job: Job<T, U>, p: Pipe<T, U>, call: Call<U>)
    requires MapperInv(job, p.ch1, p.ch2, p.mapped, p.mapper)
    ensures MapperInv(job, p.ch1, Called(p.ch2, call), p.mapped, p.mapper)
  {}

  lemma CollectorOverlooksCall<T, U>(job: Job<T, U>, s: State<U>, result: seq<U>, collector: CollectorPc, call: Call<U>)
    requires CollectorInv(job, s, result, collector)
    ensures CollectorInv(job, Called(s, call), result, collector)
  {}

  lemma CalledSeen<T>(s: State<T>, call: Call<T>)
    ensures |Called(s, call).calls| == |s.calls| + 1
    ensures CallOf(Called(s, call).calls[|s.calls|]) == call
    ensures OutcomeOf(Called(s, call).calls[|s.calls|]) == Nothing
    ensures call == Call<T>.Close ==> Called(s, call).calls[|s.calls|].CloseEntry?
  {}

  lemma ProducerCallsKeepInv<T, U>(job: Job<T, U>, p: Pipe<T, U>)
    requires PipeInv(job, p) && p.producer == ProducerIdle
    ensures PipeInv(job, ProducerMoves(job, p))
  {
    hide ChannelInv, Link, MapperInv, CollectorInv, SecondLinked;
    var call := if p.sent < |job.input| then Emplace(job.input[p.sent]) else Close;
    BeginKeepsChannel(job.max1, p.ch1, None, ReceiverOf1(p.mapper), call);
    CalledSeen(p.ch1, call);
    MapperOverlooksFirst(job, p, call);
  }

  lemma MapperPopsKeepsInv<T, U>(job: Job<T, U>, p: Pipe<T, U>)
    requires PipeInv(job, p) && p.mapper == MapperIdle
    ensures PipeInv(job, MapperMoves(job, p))
  {
    hide ChannelInv, Link, ProducerInv, CollectorInv;
    BeginKeepsChannel(job.max1, p.ch1, SenderOf1(p.producer), None, Pop);
    CalledSeen(p.ch1, Pop);
    ProducerOverlooksCall(job.input, p.ch1, p.sent, p.producer, Pop);
  }

  lemma MapperSendsKeepsInv<T, U>(job: Job<T, U>, p: Pipe<T, U>)
    requires PipeInv(job, p) && (p.mapper.Holding? || p.mapper == MapperDrained)
    ensures PipeInv(job, MapperMoves(job, p))
  {
    hide ChannelInv, Link, ProducerInv, CollectorInv;
    var call := if p.mapper.Holding? then Emplace(p.mapper.y) else Close;
    BeginKeepsChannel(job.max2, p.ch2, None, ReceiverOf2(p.collector), call);
    CalledSeen(p.ch2, call);
    CollectorOverlooksCall(job, p.ch2, p.result, p.collector, call);
  }

  lemma CollectorPopsKeepsInv<T, U>(job: Job<T, U>, p: Pipe<T, U>)
    requires PipeInv(job, p) && p.collector == CollectorIdle
    ensures PipeInv(job, CollectorMoves(p))
  {
    hide ChannelInv, Link, ProducerInv, MapperInv, FirstLinked;
    BeginKeepsChannel(job.max2, p.ch2, SenderOf2(p.mapper), None, Pop);
    CalledSeen(p.ch2, Pop);
    MapperOverlooksSecond(job, p, Pop);
  }

  // ---- Calls that return

  lemma SenderReturns<T>(s: State<T>, c: nat, receiver: Option<nat>)
    requires Link(s, Some(c), receiver) && Returned(s, c)
    ensures Link(s, None, receiver)
  {}

  lemma ReceiverReturns<T>(s: State<T>, sender: Option<nat>, c: nat)
    requires Link(s, sender, Some(c)) && Returned(s, c)
    ensures Link(s, sender, None)
  {}

  lemma FinishedEmplace<T>(max: nat, s: State<T>, c: nat)
    requires ChannelInv(max, s) && !s.closed && Returned(s, c) && CallOf(s.calls[c]).Emplace?
    ensures OutcomeOf(s.calls[c]).Accepted?
  {
    hide WakeInv;
  }

  lemma FinishedPop<T>(max: nat, s: State<T>, c: nat)
    requires ChannelInv(max, s) && c < |s.calls| && s.calls[c].PopDone?
    ensures s.calls[c].result == None ==> OutcomeOf(s.calls[c]) == Failed && s.closed && s.queue == []
    ensures s.calls[c].result.Some? ==> OutcomeOf(s.calls[c]) == Took(s.calls[c].result.value)
    ensures |s.log| == |s.removed| + |s.queue|
  {
    hide WakeInv;
  }

  lemma ProducerReturnsKeepsInv<T, U>(job: Job<T, U>, p: Pipe<T, U>)
    requires PipeInv(job, p) && p.producer != ProducerIdle && ProducerEnabled(p)
    ensures PipeInv(job, ProducerMoves(job, p))
  {
    hide ChannelInv, Link, MapperInv, CollectorInv, SecondLinked;
    SenderReturns(p.ch1, p.producer.c, ReceiverOf1(p.mapper));
    if p.producer.Emplacing? {
      FinishedEmplace(job.max1, p.ch1, p.producer.c);
    }
  }

  lemma PoppedKeepsInv<T, U>(job: Job<T, U>, p: Pipe<T, U>)
    requires PipeInv(job, p) && MapperEnabled(p) && p.mapper.Popping?
    ensures PipeInv(job, MapperMoves(job, p))
  {
    hide ChannelInv, Link, CollectorInv;
    ReceiverReturns(p.ch1, SenderOf1(p.producer), p.mapper.c);
    FinishedPop(job.max1, p.ch1, p.mapper.c);
  }

  lemma PushedKeepsInv<T, U>(job: Job<T, U>, p: Pipe<T, U>)
    requires PipeInv(job, p) && MapperEnabled(p) && p.mapper.Pushing?
    ensures PipeInv(job, MapperMoves(job, p))
  {
    hide ChannelInv, Link, ProducerInv, CollectorInv;
    SenderReturns(p.ch2, p.mapper.c, ReceiverOf2(p.collector));
    FinishedEmplace(job.max2, p.ch2, p.mapper.c);
  }

  lemma ClosedKeepsInv<T, U>(job: Job<T, U>, p: Pipe<T, U>)
    requires PipeInv(job, p) && MapperEnabled(p) && p.mapper.MapperClosing?
    ensures PipeInv(job, MapperMoves(job, p))
  {
    hide ChannelInv, Link, ProducerInv, CollectorInv;
    SenderReturns(p.ch2, p.mapper.c, ReceiverOf2(p.collector));
  }

  lemma ItemCollected<T, U>(job: Job<T, U>, s: State<U>, result: seq<U>, c: nat)
    requires CollectorInv(job, s, result, Collecting(c)) && c < |s.calls| && OutcomeOf(s.calls[c]).Took?
    requires forall k | 0 <= k < |s.log| :: s.log[k].item == job.f(job.input[k])
    ensures CollectorInv(job, s, result + [OutcomeOf(s.calls[c]).item], CollectorIdle)
  {}

  lemma EndCollected<T, U>(job: Job<T, U>, s: State<U>, result: seq<U>, c: nat)
    requires CollectorInv(job, s, result, Collecting(c)) && c < |s.calls| && OutcomeOf(s.calls[c]).Failed?
    requires s.closed && s.queue == []
    ensures CollectorInv(job, s, result, CollectorFinished)
  {}

  lemma CollectedKeepsInv<T, U>(job: Job<T, U>, p: Pipe<T, U>)
    requires PipeInv(job, p) && CollectorEnabled(p) && p.collector.Collecting?
    ensures PipeInv(job, CollectorMoves(p))
  {
    hide ChannelInv, Link, ProducerInv, CollectorInv, FirstLinked;
    var c := p.collector.c;
    ReceiverReturns(p.ch2, SenderOf2(p.mapper), c);
    FinishedPop(job.max2, p.ch2, c);
    if p.ch2.calls[c].result.Some? {
      ItemCollected(job, p.ch2, p.result, c);
    } else {
      EndCollected(job, p.ch2, p.result, c);
    }
  }

  lemma MapperKeepsInv<T, U>(job: Job<T, U>, p: Pipe<T, U>)
    requires PipeInv(job, p) && MapperEnabled(p)
    ensures PipeInv(job, MapperMoves(job, p))
  {
    hide PipeInv, MapperMoves;
    match p.mapper
    case MapperIdle => MapperPopsKeepsInv(job, p);
    case Popping(_) => PoppedKeepsInv(job, p);
    case Holding(_) => MapperSendsKeepsInv(job, p);
    case Pushing(_) => PushedKeepsInv(job, p);
    case MapperDrained => MapperSendsKeepsInv(job, p);
    case MapperClosing(_) => ClosedKeepsInv(job, p);
  }

  lemma PipeStepKeepsInv<T, U>(job: Job<T, U>, p: Pipe<T, U>, step: PipeStep<T, U>)
    requires PipeInv(job, p) && PipeEnabled(job, p, step)
    ensures PipeInv(job, PipeApply(job, p, step))
  {
    hide PipeInv, Enabled, Apply, ProducerMoves, MapperMoves, CollectorMoves;
    match step
    case ProducerStep =>
      if p.producer == ProducerIdle {
        ProducerCallsKeepInv(job, p);
      } else {
        ProducerReturnsKeepsInv(job, p);
      }
    case MapperStep => MapperKeepsInv(job, p);
    case CollectorStep =>
      if p.collector == CollectorIdle {
        CollectorPopsKeepsInv(job, p);
      } else {
        CollectedKeepsInv(job, p);
      }
    case InFirst(st) => FirstKeepsInv(job, p, st);
    case InSecond(st) => SecondKeepsInv(job, p, st);
  }

  // ---- Terminal states

  ghost predicate PipeStuck<T(!new), U(!new)>(job: Job<T, U>, p: Pipe<T, U>) {
    forall step: PipeStep<T, U> :: !SpuriousStep(step) ==> !PipeEnabled(job, p, step)
  }

  lemma StuckChannels<T(!new), U(!new)>(job: Job<T, U>, p: Pipe<T, U>)
    requires PipeStuck(job, p)
    ensures Quiescent(SpscConfig(job.max1), p.ch1) && Quiescent(SpscConfig(job.max2), p.ch2)
    ensures !ProducerEnabled(p) && !MapperEnabled(p) && !CollectorEnabled(p)
  {
    assert PipeEnabled(job, p, ProducerStep) == ProducerEnabled(p);
    assert PipeEnabled(job, p, MapperStep) == MapperEnabled(p);
    assert PipeEnabled(job, p, CollectorStep) == CollectorEnabled(p);
    forall st: Step<T> | OwnStep(st) ensures !Enabled(SpscConfig(job.max1), p.ch1, st) {
      assert !PipeEnabled(job, p, InFirst(st));
    }
    forall st: Step<U> | OwnStep(st) ensures !Enabled(SpscConfig(job.max2), p.ch2, st) {
      assert !PipeEnabled(job, p, InSecond(st));
    }
  }

  /** A pipeline that can go no further has finished, with every mapped item collected in order. */
  lemma StuckIsFinished<T(!new), U(!new)>(job: Job<T, U>, p: Pipe<T, U>)
    requires PipeInv(job, p) && PipeStuck(job, p)
    ensures p.producer == ProducerFinished && p.mapper == MapperFinished && p.collector == CollectorFinished
    ensures p.result == MapSeq(job.f, job.input)
  {
    hide Enabled, WakeInv, LogExact, RemovedExact, FailuresJustified, Quiescent, PipeStuck;
    StuckChannels(job, p);
    QuiescentMeans(SpscConfig(job.max1), p.ch1);
    QuiescentMeans(SpscConfig(job.max2), p.ch2);
  }

  // ---- Termination

  /** The steps that each thread still has to take for an input of n items. */
  function ProducerWork(n: nat, sent: nat, producer: ProducerPc): int {
    match producer
    case ProducerIdle => 2 * (n - sent) + 2
    case Emplacing(_) => 2 * (n - sent) + 1
    case ProducerClosing(_) => 1
    case ProducerFinished => 0
  }

  function MapperWork<U>(n: nat, mapped: nat, mapper: MapperPc<U>): int {
    match mapper
    case MapperIdle => 4 * (n - mapped) + 4
    case Popping(_) => 4 * (n - mapped) + 3
    case Holding(_) => 4 * (n - mapped) + 2
    case Pushing(_) => 4 * (n - mapped) + 1
    case MapperDrained => 2
    case MapperClosing(_) => 1
    case MapperFinished => 0
  }

  function CollectorWork(n: nat, collected: nat, collector: CollectorPc): int {
    match collector
    case CollectorIdle => 2 * (n - collected) + 2
    case Collecting(_) => 2 * (n - collected) + 1
    case CollectorFinished => 0
  }

  /** The steps the three threads still have to take outside the channels. */
  function ThreadWork<T, U>(job: Job<T, U>, p: Pipe<T, U>): int {
    var n := |job.input|;
    ProducerWork(n, p.sent, p.producer) + MapperWork(n, p.mapped, p.mapper) + CollectorWork(n, |p.result|, p.collector)
  }

  function CallsMade<T, U>(p: Pipe<T, U>): nat {
    |p.ch1.calls| + |p.ch2.calls|
  }

  function ChannelWork<T, U>(p: Pipe<T, U>): nat {
    Work(p.ch1.calls) + Work(p.ch2.calls)
  }

  function AwakeCalls<T, U>(p: Pipe<T, U>): nat {
    AwakeAgain(p.ch1.calls) + AwakeAgain(p.ch2.calls)
  }

  lemma ThreadWorkNonNegative<T, U>(job: Job<T, U>, p: Pipe<T, U>)
    requires PipeInv(job, p)
    ensures ThreadWork(job, p) >= 0
  {
    hide FirstLinked, SecondLinked;
  }

  lemma ProducerStepWorks<T, U>(job: Job<T, U>, p: Pipe<T, U>)
    requires ProducerEnabled(p) && p.sent <= |job.input|
    ensures var q := ProducerMoves(job, p);
            && ThreadWork(job, q) < ThreadWork(job, p)
            && CallsMade(q) + ThreadWork(job, q) <= CallsMade(p) + ThreadWork(job, p)
  {
    hide MapperWork, CollectorWork;
  }

  lemma MapperStepWorks<T, U>(job: Job<T, U>, p: Pipe<T, U>)
    requires MapperEnabled(p) && p.mapped <= |job.input|
    requires p.mapper.Holding? || p.mapper.Pushing? ==> p.mapped < |job.input|
    ensures var q := MapperMoves(job, p);
            && ThreadWork(job, q) < ThreadWork(job, p)
            && CallsMade(q) + ThreadWork(job, q) <= CallsMade(p) + ThreadWork(job, p)
  {
    hide ProducerWork, CollectorWork;
  }

  lemma CollectorStepWorks<T, U>(job: Job<T, U>, p: Pipe<T, U>)
    requires CollectorEnabled(p) && |p.result| <= |job.input|
    ensures var q := CollectorMoves(p);
            && ThreadWork(job, q) < ThreadWork(job, p)
            && CallsMade(q) + ThreadWork(job, q) <= CallsMade(p) + ThreadWork(job, p)
  {
    hide ProducerWork, MapperWork;
  }

  lemma ThreadStepWorks<T, U>(job: Job<T, U>, p: Pipe<T, U>, step: PipeStep<T, U>)
    requires PipeInv(job, p) && PipeEnabled(job, p, step)
    requires step.ProducerStep? || step.MapperStep? || step.CollectorStep?
    ensures var q := PipeApply(job, p, step);
            && ThreadWork(job, q) < ThreadWork(job, p)
            && CallsMade(q) + ThreadWork(job, q) <= CallsMade(p) + ThreadWork(job, p)
            && ChannelWork(q) <= ChannelWork(p) + 3 && AwakeCalls(q) == AwakeCalls(p)
  {
    hide FirstLinked, SecondLinked, ChannelWork, AwakeCalls, ThreadWork, CallsMade;
    hide ProducerMoves, MapperMoves, CollectorMoves;
    ThreadStepChannelWork(job, p, step);
    match step
    case ProducerStep => ProducerStepWorks(job, p);
    case MapperStep => MapperStepWorks(job, p);
    case CollectorStep => CollectorStepWorks(job, p);
  }

  lemma ThreadStepChannelWork<T, U>(job: Job<T, U>, p: Pipe<T, U>, step: PipeStep<T, U>)
    requires PipeEnabled(job, p, step)
    requires step.ProducerStep? || step.MapperStep? || step.CollectorStep?
    ensures ChannelWork(PipeApply(job, p, step)) <= ChannelWork(p) + 3
    ensures AwakeCalls(PipeApply(job, p, step)) == AwakeCalls(p)
  {
    hide Work, AwakeAgain;
    var q := PipeApply(job, p, step);
    if |q.ch1.calls| > |p.ch1.calls| {
      BeginAddsWork(p.ch1.calls, q.ch1.calls[|p.ch1.calls|]);
    }
    if |q.ch2.calls| > |p.ch2.calls| {
      BeginAddsWork(p.ch2.calls, q.ch2.calls[|p.ch2.calls|]);
    }
  }

  lemma ChannelStepWorks<T, U>(job: Job<T, U>, p: Pipe<T, U>, step: PipeStep<T, U>)
    requires PipeEnabled(job, p, step) && !SpuriousStep(step)
    requires step.InFirst? || step.InSecond?
    ensures var q := PipeApply(job, p, step);
            && ThreadWork(job, q) == ThreadWork(job, p) && CallsMade(q) == CallsMade(p)
            && (ChannelWork(q) < ChannelWork(p) || (ChannelWork(q) == ChannelWork(p) && AwakeCalls(q) < AwakeCalls(p)))
  {
    hide Enabled, Apply, Work, AwakeAgain, ProducerWork, MapperWork, CollectorWork;
    match step
    case InFirst(st) => StepDescends(SpscConfig(job.max1), p.ch1, st);
    case InSecond(st) => StepDescends(SpscConfig(job.max2), p.ch2, st);
  }

  /** Bounds the steps left, if no more than n - 1 calls are made in all. */
  function PipePotential<T, U>(job: Job<T, U>, p: Pipe<T, U>, n: nat): int {
    ThreadWork(job, p) * (3 * n + 1) + ChannelWork(p) * n + AwakeCalls(p)
  }

  lemma PipePotentialFalls<T, U>(job: Job<T, U>, p: Pipe<T, U>, step: PipeStep<T, U>, n: nat)
    requires PipeInv(job, p) && PipeEnabled(job, p, step) && !SpuriousStep(step)
    requires CallsMade(p) + ThreadWork(job, p) < n
    ensures PipePotential(job, PipeApply(job, p, step), n) < PipePotential(job, p, n)
    ensures CallsMade(PipeApply(job, p, step)) + ThreadWork(job, PipeApply(job, p, step)) < n
  {
    hide PipeEnabled, PipeApply, Work, AwakeAgain, ThreadWork, ChannelWork, PipeInv;
    var q := PipeApply(job, p, step);
    PipeStepKeepsInv(job, p, step);
    ThreadWorkNonNegative(job, q);
    WorkBound(q.ch1.calls);
    WorkBound(q.ch2.calls);
    if step.InFirst? || step.InSecond? {
      ChannelStepWorks(job, p, step);
      Lexicographic(ChannelWork(p), ChannelWork(q), AwakeCalls(p), AwakeCalls(q), n);
    } else {
      ThreadStepWorks(job, p, step);
      ThreadArithmetic(ThreadWork(job, p), ThreadWork(job, q), ChannelWork(p), ChannelWork(q), n);
    }
  }

  lemma ThreadArithmetic(k: int, k': int, w: int, w': int, n: nat)
    requires k' < k && w' <= w + 3
    ensures k' * (3 * n + 1) + w' * n < k * (3 * n + 1) + w * n
  {
    MulOrder(3 * n + 1, k', k - 1);
    assert (k - 1) * (3 * n + 1) == k * (3 * n + 1) - (3 * n + 1);
    MulOrder(n, w', w + 3);
    assert (w + 3) * n == w * n + 3 * n;
  }

  lemma {:induction false} PipeRun<T, U>(job: Job<T, U>, p: Pipe<T, U>, steps: seq<PipeStep<T, U>>, n: nat)
    requires PipeInv(job, p) && PipeLegal(job, p, steps)
    ensures PipeInv(job, PipeExec(job, p, steps))
    ensures CallsMade(p) + ThreadWork(job, p) < n && (forall i | 0 <= i < |steps| :: !SpuriousStep(steps[i])) ==>
              |steps| <= PipePotential(job, p, n)
    decreases |steps|
  {
    hide PipeInv, PipeEnabled, PipeApply, ThreadWork, ChannelWork, Work, AwakeAgain;
    if steps == [] {
      ThreadWorkNonNegative(job, p);
      assert ThreadWork(job, p) * (3 * n + 1) >= 0 && ChannelWork(p) * n >= 0;
    } else {
      hide PipePotential;
      PipeStepKeepsInv(job, p, steps[0]);
      PipeRun(job, PipeApply(job, p, steps[0]), steps[1..], n);
      if CallsMade(p) + ThreadWork(job, p) < n && (forall i | 0 <= i < |steps| :: !SpuriousStep(steps[i])) {
        PipePotentialFalls(job, p, steps[0], n);
      }
    }
  }

  lemma ResultIsPrefix<T, U>(job: Job<T, U>, p: Pipe<T, U>)
    requires PipeInv(job, p)
    ensures |p.result| <= |job.input| && p.result == MapSeq(job.f, job.input)[..|p.result|]
  {
    hide FirstLinked, SecondLinked;
  }

  lemma StartWork<T, U>(job: Job<T, U>)
    ensures var start: Pipe<T, U> := Start();
            && CallsMade(start) == 0 && ThreadWork(job, start) == 8 * (|job.input| + 1)
            && ChannelWork(start) == 0 && AwakeCalls(start) == 0
  {
    WorkBound<T>([]);
    WorkBound<U>([]);
  }

  lemma StartPotential<T, U>(job: Job<T, U>)
    ensures var w := 8 * (|job.input| + 1);
            var start: Pipe<T, U> := Start();
            && CallsMade(start) == 0 && ThreadWork(job, start) == w
            && PipePotential(job, start, w + 1) == w * (3 * w + 4)
  {
    hide CallsMade, ThreadWork, ChannelWork, AwakeCalls, Start;
    StartWork(job);
    StartArithmetic(8 * (|job.input| + 1));
  }

  lemma StartArithmetic(w: nat)
    ensures w * (3 * (w + 1) + 1) + 0 * (w + 1) + 0 == w * (3 * w + 4)
  {}

  /** For every input, both capacities positive and every interleaving: what has been collected is always the
      mapped input up to that point; without spurious wakeups the number of steps is bounded; and a run that
      can go no further has collected everything and seen all three threads finish.  */
  lemma PipelineCorrect<T(!new), U(!new)>(job: Job<T, U>, steps: seq<PipeStep<T, U>>)
    requires job.max1 > 0 && job.max2 > 0 && PipeLegal(job, Start(), steps)
    ensures var p := PipeExec(job, Start(), steps);
            && |p.result| <= |job.input| && p.result == MapSeq(job.f, job.input)[..|p.result|]
            && (PipeStuck(job, p) ==>
                  && p.result == MapSeq(job.f, job.input)
                  && p.producer == ProducerFinished && p.mapper == MapperFinished && p.collector == CollectorFinished)
    ensures (forall i | 0 <= i < |steps| :: !SpuriousStep(steps[i])) ==>
              var w := 8 * (|job.input| + 1);
              |steps| <= w * (3 * w + 4)
  {
    hide PipeLegal, PipeExec, PipeStuck, PipeInv, ThreadWork, CallsMade, PipePotential, Start, MapSeq;
    var w := 8 * (|job.input| + 1);
    StartInv(job);
    StartPotential(job);
    PipeRun(job, Start(), steps, w + 1);
    var p := PipeExec(job, Start(), steps);
    ResultIsPrefix(job, p);
    if PipeStuck(job, p) {
      StuckIsFinished(job, p);
    }
  }
}
