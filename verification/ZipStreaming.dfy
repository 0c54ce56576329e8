/**
 * The bridge that lets a synchronous generator consume an asynchronous byte stream:
 * a producer thread and the consuming generator share a bounded queue, a stop flag and a
 * cancellation request. Every interleaving of their atomic steps is a sequence of actions;
 * an action that is not enabled leaves the state as it is.
 */
module ZipStreaming {
  import opened Basics

  type Chunk = seq<byte>

  datatype Error = Cancelled | Failure(message: string)

  /** What the queue carries: chunks, the end marker, or a boxed exception. */
  datatype Item = Data(chunk: Chunk) | End | ErrorBox(error: Error)

  /** Behaviour of the stream behind the factory: it may fail to open, then yields its chunks,
      then ends or fails; closing it may fail too. */
  datatype Source = Source(openError: Option<Error>, chunks: seq<Chunk>,
                           readError: Option<Error>, closeError: Option<Error>)

  /** What the producer does once the stream is closed. */
  datatype After = ThenEnd | ThenRaise(error: Error) | ThenReturn

  datatype Producer =
    | NotStarted
    | Opening               // awaiting the factory
    | Reading               // awaiting the next chunk
    | Offering(item: Item, again: bool)  // at the test of the stop flag in enqueue; again after a timeout
    | Putting(item: Item)   // inside the timed put
    | Closing(after: After) // awaiting aclose
    | Finished

  datatype Outcome = Returned | Raised(error: Error) | Closed

  datatype Consumer =
    | Getting               // blocked in queue.get
    | Suspended             // at the yield
    | Stopping(outcome: Outcome)
    | Cancelling(outcome: Outcome)
    | Done(outcome: Outcome)

  datatype State = State(
    producer: Producer, consumer: Consumer, queue: seq<Item>,
    stopped: bool, cancelRequested: bool,
    factoryDone: bool, closes: nat,  // did the factory succeed; completed aclose calls
    read: nat,                  // chunks taken from the stream
    puts: seq<Item>,            // every item ever put
    taken: nat,                 // items the consumer has taken
    yielded: seq<Chunk>)        // chunks handed to the caller

  datatype ProducerAction = Start | Open | Read | Cancel | TestStop | Put | Timeout | FinishClose

  datatype ConsumerAction = Get | Resume | Close | SetStop | RequestCancel(delivered: bool)

  datatype Action = ByProducer(p: ProducerAction) | ByConsumer(c: ConsumerAction)

  const INIT := State(NotStarted, Getting, [], false, false, false, 0, 0, [], 0, [])

  /** A queue whose maximum size is zero or less is unbounded. */
  predicate HasRoom(maxSize: int, queue: seq<Item>) {
    maxSize <= 0 || |queue| < maxSize
  }

  predicate ProducerCan(maxSize: int, s: State, a: ProducerAction) {
    match a
    case Start => s.producer.NotStarted?
    case Open => s.producer.Opening?
    case Read => s.producer.Reading?
    case Cancel => s.cancelRequested && (s.producer.Opening? || s.producer.Reading? || s.producer.Closing?)
    case TestStop => s.producer.Offering?
    case Put => s.producer.Putting? && HasRoom(maxSize, s.queue)
    case Timeout => s.producer.Putting? && !HasRoom(maxSize, s.queue)
    case FinishClose => s.producer.Closing?
  }

  predicate ConsumerCan(s: State, a: ConsumerAction) {
    match a
    case Get => s.consumer.Getting? && s.queue != []
    case Resume => s.consumer.Suspended?
    case Close => s.consumer.Suspended?
    case SetStop => s.consumer.Stopping?
    case RequestCancel(delivered) => s.consumer.Cancelling? && (delivered ==> !s.producer.NotStarted?)
  }

  predicate Enabled(maxSize: int, s: State, a: Action) {
    match a
    case ByProducer(p) => ProducerCan(maxSize, s, p)
    case ByConsumer(c) => ConsumerCan(s, c)
  }

  function AfterClose(src: Source, after: After): Producer {
    match src.closeError
    case Some(e) => Offering(ErrorBox(e), false)
    case None =>
      match after
      case ThenRaise(e) => Offering(ErrorBox(e), false)
      case ThenEnd => Offering(End, false)
      case ThenReturn => Finished
  }

  function Produce(src: Source, maxSize: int, s: State, a: ProducerAction): State
    requires ProducerCan(maxSize, s, a)
  {
    match a
    case Start => s.(producer := Opening)
    case Open =>
      (match src.openError
       case Some(e) => s.(producer := Offering(ErrorBox(e), false))
       case None => s.(producer := Reading, factoryDone := true))
    case Read =>
      if s.read < |src.chunks| then
        s.(producer := Offering(Data(src.chunks[s.read]), false), read := s.read + 1)
      else
        s.(producer := Closing(if src.readError.Some? then ThenRaise(src.readError.value) else ThenEnd))
    case Cancel =>
      s.(cancelRequested := false,
         producer := if s.producer.Opening? then Offering(ErrorBox(Cancelled), false)
                     else Closing(ThenRaise(Cancelled)))
    case TestStop =>
      if !s.stopped then s.(producer := Putting(s.producer.item))
      else if s.producer.item.Data? then s.(producer := Closing(ThenReturn))
      else s.(producer := Finished)
    case Put =>
      s.(queue := s.queue + [s.producer.item], puts := s.puts + [s.producer.item],
         producer := if s.producer.item.Data? then Reading else Finished)
    case Timeout => s.(producer := Offering(s.producer.item, true))
    case FinishClose => s.(closes := s.closes + 1, producer := AfterClose(src, s.producer.after))
  }

  function Consume(s: State, a: ConsumerAction): State
    requires ConsumerCan(s, a)
  {
    match a
    case Get =>
      var t := s.(queue := s.queue[1..], taken := s.taken + 1);
      (match s.queue[0]
       case Data(c) => t.(consumer := Suspended, yielded := s.yielded + [c])
       case End => t.(consumer := Stopping(Returned))
       case ErrorBox(e) => t.(consumer := Stopping(Raised(e))))
    case Resume => s.(consumer := Getting)
    case Close => s.(consumer := Stopping(Closed))
    case SetStop => s.(stopped := true, consumer := Cancelling(s.consumer.outcome))
    case RequestCancel(delivered) => s.(cancelRequested := delivered, consumer := Done(s.consumer.outcome))
  }

  function Apply(src: Source, maxSize: int, s: State, a: Action): State
    requires Enabled(maxSize, s, a)
  {
    match a
    case ByProducer(p) => Produce(src, maxSize, s, p)
    case ByConsumer(c) => Consume(s, c)
  }

  function Next(src: Source, maxSize: int, s: State, a: Action): State {
    if Enabled(maxSize, s, a) then Apply(src, maxSize, s, a) else s
  }

  /** The state after any interleaving of actions. */
  function Exec(src: Source, maxSize: int, actions: seq<Action>): State {
    if actions == [] then INIT
    else Next(src, maxSize, Exec(src, maxSize, actions[..|actions| - 1]), actions[|actions| - 1])
  }

  // ----- what an undisturbed consumer should see -----

  function Delivered(src: Source): seq<Chunk> {
    if src.openError.Some? then [] else src.chunks
  }

  function Expected(src: Source): Outcome {
    if src.openError.Some? then Raised(src.openError.value)
    else if src.closeError.Some? then Raised(src.closeError.value)
    else if src.readError.Some? then Raised(src.readError.value)
    else Returned
  }

  function Marker(src: Source): Item {
    if Expected(src).Raised? then ErrorBox(Expected(src).error) else End
  }

  // ----- the invariant -----

  /** The first n puts are the first n chunks. */
  ghost predicate ChunksPut(chunks: seq<Chunk>, puts: seq<Item>, n: nat) {
    && n <= |puts| && n <= |chunks|
    && forall i :: 0 <= i < n ==> puts[i] == Data(chunks[i])
  }

  ghost predicate HasMarker(puts: seq<Item>) {
    |puts| > 0 && !puts[|puts| - 1].Data?
  }

  /** The queue is what was put and not yet taken; what was yielded was taken, in order. */
  ghost predicate QueueInv(maxSize: int, s: State) {
    && s.taken <= |s.puts| && s.queue == s.puts[s.taken..]
    && (maxSize > 0 ==> |s.queue| <= maxSize)
    && ChunksPut(s.yielded, s.puts, |s.yielded|)
  }

  ghost predicate OfferInv(src: Source, s: State, item: Item, abandoned: bool) {
    && ChunksPut(Delivered(src), s.puts, |s.puts|)
    && (if item.Data? then
          && s.factoryDone && src.openError.None? && s.closes == 0
          && 0 < s.read <= |src.chunks| && |s.puts| == s.read - 1
          && item == Data(src.chunks[s.read - 1])
        else
          && s.closes == (if s.factoryDone then 1 else 0)
          && (abandoned || (item == Marker(src) && |s.puts| == |Delivered(src)|)))
  }

  ghost predicate FinishedInv(src: Source, s: State) {
    && s.closes == (if s.factoryDone then 1 else 0)
    && (if HasMarker(s.puts)
        then |s.puts| == |Delivered(src)| + 1 && ChunksPut(Delivered(src), s.puts, |Delivered(src)|)
             && s.puts[|s.puts| - 1] == Marker(src)
        else s.stopped && ChunksPut(Delivered(src), s.puts, |s.puts|))
  }

  ghost predicate ClosingInv(src: Source, s: State, after: After) {
    && s.factoryDone && src.openError.None? && s.closes == 0
    && ChunksPut(Delivered(src), s.puts, |s.puts|)
    && (after.ThenReturn? ==> s.stopped)
    && (s.stopped || (|s.puts| == |src.chunks| &&
          (after == if src.readError.Some? then ThenRaise(src.readError.value) else ThenEnd)))
  }

  ghost predicate ProducerInv(src: Source, s: State) {
    && s.read <= |src.chunks|
    && match s.producer
       case NotStarted => s.puts == [] && s.read == 0 && !s.factoryDone && s.closes == 0
       case Opening => s.puts == [] && s.read == 0 && !s.factoryDone && s.closes == 0
       case Reading =>
         && s.factoryDone && src.openError.None? && s.closes == 0
         && |s.puts| == s.read && ChunksPut(Delivered(src), s.puts, |s.puts|)
       case Offering(item, _) => OfferInv(src, s, item, s.stopped)
       case Putting(item) => OfferInv(src, s, item, false)
       case Closing(after) => ClosingInv(src, s, after)
       case Finished => FinishedInv(src, s)
  }

  ghost predicate ConsumerInv(src: Source, s: State) {
    && s.stopped == (s.consumer.Cancelling? || s.consumer.Done?)
    && (s.cancelRequested ==> s.consumer.Done?)
    && (if s.consumer.Getting? || s.consumer.Suspended? || s.consumer.outcome == Closed
        then s.taken == |s.yielded|
        else s.taken == |s.yielded| + 1 == |s.puts| && s.yielded == Delivered(src)
             && s.consumer.outcome == Expected(src))
  }

  ghost predicate Inv(src: Source, maxSize: int, s: State) {
    QueueInv(maxSize, s) && ProducerInv(src, s) && ConsumerInv(src, s)
  }

  /** While the producer still runs, no marker has been put. */
  lemma NoMarkerYet(src: Source, s: State)
    requires ProducerInv(src, s) && !s.producer.Finished?
    ensures ChunksPut(Delivered(src), s.puts, |s.puts|) && !HasMarker(s.puts)
  {
  }

  lemma PutKeepsQueueInv(src: Source, maxSize: int, s: State)
    requires QueueInv(maxSize, s) && ProducerCan(maxSize, s, Put)
    ensures QueueInv(maxSize, Produce(src, maxSize, s, Put))
  {
    var t := Produce(src, maxSize, s, Put);
    assert t.queue == t.puts[t.taken..];
  }

  lemma PutKeepsProducerInv(src: Source, maxSize: int, s: State)
    requires s.producer.Putting? && HasRoom(maxSize, s.queue) && s.read <= |src.chunks|
    requires OfferInv(src, s, s.producer.item, false)
    ensures ProducerInv(src, Produce(src, maxSize, s, Put))
  {
    var t := Produce(src, maxSize, s, Put);
    assert ChunksPut(Delivered(src), t.puts, |s.puts|);
    assert t.puts[|t.puts| - 1] == s.producer.item;
  }

  /** The consumer's part of the invariant reads only these fields. */
  lemma SameForConsumer(src: Source, s: State, t: State)
    requires ConsumerInv(src, s) && ChunksPut(Delivered(src), s.puts, |s.puts|)
    requires t.stopped == s.stopped && t.consumer == s.consumer && (t.cancelRequested ==> s.cancelRequested)
    requires t.taken == s.taken && t.yielded == s.yielded && s.puts <= t.puts
    ensures ConsumerInv(src, t)
  {
  }

  /** The marker, once taken, is the last item and reports the stream's own outcome. */
  lemma MarkerIsLast(src: Source, s: State)
    requires ProducerInv(src, s) && s.taken < |s.puts| && !s.puts[s.taken].Data?
    requires s.taken == |s.yielded| && ChunksPut(s.yielded, s.puts, |s.yielded|)
    ensures s.taken == |s.puts| - 1 && s.yielded == Delivered(src) && s.puts[s.taken] == Marker(src)
  {
    if !s.producer.Finished? { NoMarkerYet(src, s); }
    assert forall i :: 0 <= i < |s.puts| - 1 ==> s.puts[i].Data?;
    forall i | 0 <= i < |s.yielded| ensures s.yielded[i] == Delivered(src)[i] {
      assert s.puts[i] == Data(s.yielded[i]);
    }
  }

  lemma GetKeepsQueueInv(maxSize: int, s: State)
    requires QueueInv(maxSize, s) && ConsumerCan(s, Get) && s.taken == |s.yielded|
    ensures QueueInv(maxSize, Consume(s, Get)) && s.queue[0] == s.puts[s.taken]
  {
    assert s.queue[0] == s.puts[s.taken];
    assert s.queue[1..] == s.puts[s.taken + 1..];
  }

  lemma GetKeepsConsumerInv(src: Source, s: State)
    requires ConsumerInv(src, s) && ConsumerCan(s, Get)
    requires !s.queue[0].Data? ==>
               s.taken == |s.puts| - 1 && s.yielded == Delivered(src) && s.queue[0] == Marker(src)
    ensures ConsumerInv(src, Consume(s, Get))
  {
  }

  lemma GetKeepsInv(src: Source, maxSize: int, s: State)
    requires Inv(src, maxSize, s) && ConsumerCan(s, Get)
    ensures Inv(src, maxSize, Consume(s, Get))
  {
    GetKeepsQueueInv(maxSize, s);
    SameForProducer(src, s, Consume(s, Get));
    if !s.queue[0].Data? {
      MarkerIsLast(src, s);
    }
    GetKeepsConsumerInv(src, s);
  }

  /** The producer's part of the invariant reads only these fields. */
  lemma SameForProducer(src: Source, s: State, t: State)
    requires ProducerInv(src, s)
    requires t.producer == s.producer && t.puts == s.puts && t.read == s.read && (s.stopped ==> t.stopped)
    requires t.factoryDone == s.factoryDone && t.closes == s.closes
    ensures ProducerInv(src, t)
  {
  }

  lemma ProduceKeepsProducerInv(src: Source, maxSize: int, s: State, a: ProducerAction)
    requires ProducerInv(src, s) && ProducerCan(maxSize, s, a) && a != Put
    requires s.cancelRequested ==> s.stopped
    ensures ProducerInv(src, Produce(src, maxSize, s, a))
  {
    assert Produce(src, maxSize, s, a).puts == s.puts;
  }

  lemma PutKeepsInv(src: Source, maxSize: int, s: State)
    requires Inv(src, maxSize, s) && ProducerCan(maxSize, s, Put)
    ensures Inv(src, maxSize, Produce(src, maxSize, s, Put))
  {
    NoMarkerYet(src, s);
    SameForConsumer(src, s, Produce(src, maxSize, s, Put));
    PutKeepsQueueInv(src, maxSize, s);
    PutKeepsProducerInv(src, maxSize, s);
  }

  /** Only a put touches what the two parties share. */
  lemma OthersLeaveTheQueue(src: Source, maxSize: int, s: State, a: ProducerAction)
    requires ProducerCan(maxSize, s, a) && a != Put
    ensures var t := Produce(src, maxSize, s, a);
      && t.queue == s.queue && t.puts == s.puts && t.taken == s.taken && t.yielded == s.yielded
      && t.stopped == s.stopped && t.consumer == s.consumer && (t.cancelRequested ==> s.cancelRequested)
  {
  }

  lemma OtherProduceKeepsInv(src: Source, maxSize: int, s: State, a: ProducerAction)
    requires Inv(src, maxSize, s) && ProducerCan(maxSize, s, a) && a != Put
    ensures Inv(src, maxSize, Produce(src, maxSize, s, a))
  {
    OthersLeaveTheQueue(src, maxSize, s, a);
    NoMarkerYet(src, s);
    SameForConsumer(src, s, Produce(src, maxSize, s, a));
    ProduceKeepsProducerInv(src, maxSize, s, a);
  }

  lemma ProduceKeepsInv(src: Source, maxSize: int, s: State, a: ProducerAction)
    requires Inv(src, maxSize, s) && ProducerCan(maxSize, s, a)
    ensures Inv(src, maxSize, Produce(src, maxSize, s, a))
  {
    if a == Put { PutKeepsInv(src, maxSize, s); } else { OtherProduceKeepsInv(src, maxSize, s, a); }
  }

  lemma ConsumeKeepsInv(src: Source, maxSize: int, s: State, a: ConsumerAction)
    requires Inv(src, maxSize, s) && ConsumerCan(s, a)
    ensures Inv(src, maxSize, Consume(s, a))
  {
    if a == Get {
      GetKeepsInv(src, maxSize, s);
    } else {
      SameForProducer(src, s, Consume(s, a));
    }
  }

  lemma InvStep(src: Source, maxSize: int, s: State, a: Action)
    requires Inv(src, maxSize, s)
    ensures Inv(src, maxSize, Next(src, maxSize, s, a))
  {
    if Enabled(maxSize, s, a) {
      match a
      case ByProducer(p) => ProduceKeepsInv(src, maxSize, s, p);
      case ByConsumer(c) => ConsumeKeepsInv(src, maxSize, s, c);
    }
  }

  lemma {:induction false} InvExec(src: Source, maxSize: int, actions: seq<Action>)
    ensures Inv(src, maxSize, Exec(src, maxSize, actions))
  {
    if actions == [] {
    } else {
      var before := actions[..|actions| - 1];
      InvExec(src, maxSize, before);
      InvStep(src, maxSize, Exec(src, maxSize, before), actions[|actions| - 1]);
    }
  }

  // ----- main results -----

  /** Safety of every interleaving. */
  lemma BridgeSafety(src: Source, maxSize: int, actions: seq<Action>)
    ensures var s := Exec(src, maxSize, actions);
      && s.yielded <= Delivered(src)
      && (maxSize > 0 ==> |s.queue| <= maxSize)
      && (forall i :: 0 <= i < |s.puts| - 1 ==> s.puts[i].Data?)
      && (forall o :: s.consumer == Done(o) && o != Closed ==> o == Expected(src) && s.yielded == Delivered(src))
      && (s.producer.Finished? ==> s.closes == (if s.factoryDone then 1 else 0))
  {
    InvExec(src, maxSize, actions);
    var s := Exec(src, maxSize, actions);
    YieldedInOrder(src, maxSize, s);
  }

  lemma YieldedInOrder(src: Source, maxSize: int, s: State)
    requires Inv(src, maxSize, s)
    ensures |s.yielded| <= |Delivered(src)|
    ensures forall i :: 0 <= i < |s.yielded| ==> s.yielded[i] == Delivered(src)[i]
  {
    if !s.producer.Finished? { NoMarkerYet(src, s); }
    forall i | 0 <= i < |s.yielded| ensures i < |Delivered(src)| && s.yielded[i] == Delivered(src)[i] {
      assert s.puts[i] == Data(s.yielded[i]);
    }
  }

  /** A consumer blocked on an empty queue is never abandoned: the producer is still running, can
      take a step, and its put cannot time out. Nothing at all is stuck until both have ended. */
  lemma NeverStuck(src: Source, maxSize: int, actions: seq<Action>)
    ensures var s := Exec(src, maxSize, actions);
      && (s.consumer.Getting? && s.queue == [] ==> !s.producer.Finished? && !ProducerCan(maxSize, s, Timeout))
      && ((exists a :: Enabled(maxSize, s, a)) <==> !(s.producer.Finished? && s.consumer.Done?))
  {
    InvExec(src, maxSize, actions);
    var s := Exec(src, maxSize, actions);
    if !(s.producer.Finished? && s.consumer.Done?) {
      var producerTurn := match s.producer
        case NotStarted => Start case Opening => Open case Reading => Read case Offering(_, _) => TestStop
        case Putting(_) => if HasRoom(maxSize, s.queue) then Put else Timeout
        case Closing(_) => FinishClose case Finished => Start;
      var consumerTurn := match s.consumer
        case Getting => Get case Suspended => Resume case Stopping(_) => SetStop
        case Cancelling(_) => RequestCancel(false) case Done(_) => Get;
      assert Enabled(maxSize, s, ByProducer(producerTurn)) || Enabled(maxSize, s, ByConsumer(consumerTurn));
    }
  }

  /** Once the stop flag is set, at most the put already under way still lands in the queue. */
  lemma {:induction false} AtMostOneLatePut(src: Source, maxSize: int, actions: seq<Action>, more: seq<Action>)
    requires Exec(src, maxSize, actions).stopped
    ensures var s, t := Exec(src, maxSize, actions), Exec(src, maxSize, actions + more);
      && t.stopped
      && |t.puts| + (if t.producer.Putting? then 1 else 0) <= |s.puts| + (if s.producer.Putting? then 1 else 0)
  {
    if more == [] {
      assert actions + more == actions;
    } else {
      AtMostOneLatePut(src, maxSize, actions, more[..|more| - 1]);
      assert (actions + more)[..|actions + more| - 1] == actions + more[..|more| - 1];
    }
  }

  // ----- bounded work -----

  /** The only steps that may repeat: a put that times out on a full queue, and the test of the stop flag that sends
      the same item to its next put. */
  predicate Spins(s: State, a: Action) {
    a.ByProducer? && (a.p == Timeout || (a.p == TestStop && s.producer.Offering? && s.producer.again && !s.stopped))
  }

  function ProducerWork(src: Source, s: State): int {
    var rest := 3 * (|src.chunks| - s.read);
    match s.producer
    case NotStarted => rest + 6
    case Opening => rest + 5
    case Reading => rest + 4
    case Offering(item, again) => (if item.Data? then rest + 5 else 1) + (if again then 0 else 1)
    case Putting(item) => if item.Data? then rest + 5 else 1
    case Closing(_) => 3
    case Finished => 0
  }

  /** Only after an early close can the cancellation still find the producer at work. */
  function ConsumerWork(src: Source, s: State): int {
    var rest := 2 * (|src.chunks| - |s.yielded|);
    match s.consumer
    case Getting => rest + 3
    case Suspended => rest + 4
    case Stopping(o) => if o == Closed then 3 else 2
    case Cancelling(o) => if o == Closed then 2 else 1
    case Done(o) => if o == Closed && s.cancelRequested then 1 else 0
  }

  function Work(src: Source, s: State): int {
    ProducerWork(src, s) + ConsumerWork(src, s)
  }

  /** Steps of a run, not counting the timeouts of a put and the tests that follow them and find the flag down. */
  function Steps(src: Source, maxSize: int, actions: seq<Action>): nat {
    if actions == [] then 0
    else
      var before := actions[..|actions| - 1];
      var a, s := actions[|actions| - 1], Exec(src, maxSize, before);
      Steps(src, maxSize, before) + (if Enabled(maxSize, s, a) && !Spins(s, a) then 1 else 0)
  }

  /** The producer's own steps, but for taking a cancellation, leave the consumer's work alone. */
  lemma OwnWorkDecreases(src: Source, maxSize: int, s: State, a: ProducerAction)
    requires s.read <= |src.chunks| && ProducerCan(maxSize, s, a) && a != Cancel
    ensures var t := Produce(src, maxSize, s, a);
      && ConsumerWork(src, t) == ConsumerWork(src, s)
      && if Spins(s, ByProducer(a)) then ProducerWork(src, t) == ProducerWork(src, s)
         else ProducerWork(src, t) < ProducerWork(src, s)
  {
  }

  /** A consumer that was not closed has taken the marker, and then the producer has finished. */
  lemma CancelFindsClosed(src: Source, s: State)
    requires ProducerInv(src, s) && ConsumerInv(src, s) && s.cancelRequested && !s.producer.Finished?
    ensures s.consumer == Done(Closed)
  {
    NoMarkerYet(src, s);
  }

  lemma CancelWorkDecreases(src: Source, maxSize: int, s: State)
    requires Inv(src, maxSize, s) && ProducerCan(maxSize, s, Cancel)
    ensures Work(src, Produce(src, maxSize, s, Cancel)) < Work(src, s) && !Spins(s, ByProducer(Cancel))
  {
    CancelFindsClosed(src, s);
  }

  lemma ProducerWorkDecreases(src: Source, maxSize: int, s: State, a: ProducerAction)
    requires Inv(src, maxSize, s) && ProducerCan(maxSize, s, a)
    ensures var t := Produce(src, maxSize, s, a);
      if Spins(s, ByProducer(a)) then Work(src, t) == Work(src, s) else Work(src, t) < Work(src, s)
  {
    if a == Cancel { CancelWorkDecreases(src, maxSize, s); } else { OwnWorkDecreases(src, maxSize, s, a); }
  }

  lemma ConsumerWorkDecreases(src: Source, s: State, a: ConsumerAction)
    requires |s.yielded| <= |src.chunks| && ConsumerCan(s, a) && (s.cancelRequested ==> s.consumer.Done?)
    ensures Work(src, Consume(s, a)) < Work(src, s)
  {
    assert ProducerWork(src, Consume(s, a)) == ProducerWork(src, s);
  }

  lemma StepWork(src: Source, maxSize: int, s: State, a: Action)
    requires Inv(src, maxSize, s)
    ensures Work(src, Next(src, maxSize, s, a)) + (if Enabled(maxSize, s, a) && !Spins(s, a) then 1 else 0)
         <= Work(src, s)
  {
    YieldedInOrder(src, maxSize, s);
    if Enabled(maxSize, s, a) {
      match a
      case ByProducer(p) => ProducerWorkDecreases(src, maxSize, s, p);
      case ByConsumer(c) => ConsumerWorkDecreases(src, s, c);
    }
  }

  lemma WorkIsNonNegative(src: Source, s: State)
    requires s.read <= |src.chunks| && |s.yielded| <= |src.chunks|
    ensures Work(src, s) >= 0
  {
    assert ProducerWork(src, s) >= 0 && ConsumerWork(src, s) >= 0;
  }

  /** For a finite stream, every interleaving does at most five steps per chunk plus nine, not counting retries of a put
      on a full queue. */
  lemma {:induction false} BoundedWork(src: Source, maxSize: int, actions: seq<Action>)
    ensures Steps(src, maxSize, actions) + Work(src, Exec(src, maxSize, actions)) <= 5 * |src.chunks| + 9
    ensures Steps(src, maxSize, actions) <= 5 * |src.chunks| + 9
  {
    InvExec(src, maxSize, actions);
    YieldedInOrder(src, maxSize, Exec(src, maxSize, actions));
    WorkIsNonNegative(src, Exec(src, maxSize, actions));
    if actions != [] {
      var before := actions[..|actions| - 1];
      BoundedWork(src, maxSize, before);
      InvExec(src, maxSize, before);
      StepWork(src, maxSize, Exec(src, maxSize, before), actions[|actions| - 1]);
    }
  }

  // ----- the bound is reached -----

  /** A run that gets to the state, in so many steps. */
  ghost predicate Takes(src: Source, maxSize: int, actions: seq<Action>, s: State, steps: nat) {
    Exec(src, maxSize, actions) == s && Steps(src, maxSize, actions) == steps
  }

  lemma Extend(src: Source, maxSize: int, actions: seq<Action>, s: State, steps: nat, a: Action)
    requires Takes(src, maxSize, actions, s, steps) && Enabled(maxSize, s, a) && !Spins(s, a)
    ensures Takes(src, maxSize, actions + [a], Apply(src, maxSize, s, a), steps + 1)
  {
    assert (actions + [a])[..|actions|] == actions;
  }

  function AsItems(chunks: seq<Chunk>): (r: seq<Item>)
    ensures |r| == |chunks| && forall i :: 0 <= i < |r| ==> r[i] == Data(chunks[i])
  {
    seq(|chunks|, i requires 0 <= i < |chunks| => Data(chunks[i]))
  }

  /** Between two chunks, when the consumer takes each as it comes. */
  function Between(src: Source, n: nat): State
    requires n <= |src.chunks|
  {
    State(Reading, Getting, [], false, false, true, 0, n, AsItems(src.chunks[..n]), n, src.chunks[..n])
  }

  /** One chunk on its way: read, tested, put, got, and the consumer resumed. */
  lemma ChunkTakesFive(src: Source, maxSize: int, before: seq<Action>, n: nat, steps: nat) returns (run: seq<Action>)
    requires n < |src.chunks| && Takes(src, maxSize, before, Between(src, n), steps)
    ensures Takes(src, maxSize, run, Between(src, n + 1), steps + 5)
  {
    var s, item := Between(src, n), Data(src.chunks[n]);
    Extend(src, maxSize, before, s, steps, ByProducer(Read));
    run, s := before + [ByProducer(Read)], s.(producer := Offering(item, false), read := n + 1);
    Extend(src, maxSize, run, s, steps + 1, ByProducer(TestStop));
    run, s := run + [ByProducer(TestStop)], s.(producer := Putting(item));
    Extend(src, maxSize, run, s, steps + 2, ByProducer(Put));
    run := run + [ByProducer(Put)];
    s := s.(producer := Reading, queue := [item], puts := AsItems(src.chunks[..n]) + [item]);
    Extend(src, maxSize, run, s, steps + 3, ByConsumer(Get));
    run := run + [ByConsumer(Get)];
    s := s.(consumer := Suspended, queue := [], taken := n + 1, yielded := src.chunks[..n] + [src.chunks[n]]);
    Extend(src, maxSize, run, s, steps + 4, ByConsumer(Resume));
    run := run + [ByConsumer(Resume)];
    assert src.chunks[..n + 1] == src.chunks[..n] + [src.chunks[n]];
    assert AsItems(src.chunks[..n + 1]) == AsItems(src.chunks[..n]) + [item];
  }

  lemma {:induction false} ChunksTakeFive(src: Source, maxSize: int, n: nat) returns (run: seq<Action>)
    requires src.openError.None? && n <= |src.chunks|
    ensures Takes(src, maxSize, run, Between(src, n), 5 * n + 2)
  {
    if n == 0 {
      Extend(src, maxSize, [], INIT, 0, ByProducer(Start));
      Extend(src, maxSize, [] + [ByProducer(Start)], INIT.(producer := Opening), 1, ByProducer(Open));
      run := [] + [ByProducer(Start)] + [ByProducer(Open)];
    } else {
      run := ChunksTakeFive(src, maxSize, n - 1);
      run := ChunkTakesFive(src, maxSize, run, n - 1, 5 * n - 3);
    }
  }

  /** The marker is put. */
  lemma PutMarker(src: Source, maxSize: int, before: seq<Action>, steps: nat) returns (run: seq<Action>)
    requires Takes(src, maxSize, before, Between(src, |src.chunks|), steps) && src.openError.None?
    ensures var items := AsItems(src.chunks[..|src.chunks|]);
      Takes(src, maxSize, run, Between(src, |src.chunks|).(producer := Finished, closes := 1, queue := [Marker(src)],
                                                           puts := items + [Marker(src)]), steps + 4)
  {
    var s := Between(src, |src.chunks|);
    Extend(src, maxSize, before, s, steps, ByProducer(Read));
    var after := if src.readError.Some? then ThenRaise(src.readError.value) else ThenEnd;
    run, s := before + [ByProducer(Read)], s.(producer := Closing(after));
    Extend(src, maxSize, run, s, steps + 1, ByProducer(FinishClose));
    run, s := run + [ByProducer(FinishClose)], s.(closes := 1, producer := Offering(Marker(src), false));
    Extend(src, maxSize, run, s, steps + 2, ByProducer(TestStop));
    run, s := run + [ByProducer(TestStop)], s.(producer := Putting(Marker(src)));
    Extend(src, maxSize, run, s, steps + 3, ByProducer(Put));
    run := run + [ByProducer(Put)];
  }

  /** The consumer ends by itself. */
  lemma TakeMarker(src: Source, maxSize: int, before: seq<Action>, s: State, steps: nat) returns (run: seq<Action>)
    requires Takes(src, maxSize, before, s, steps) && s.consumer.Getting? && s.queue == [Marker(src)]
    ensures Steps(src, maxSize, run) == steps + 3
  {
    Extend(src, maxSize, before, s, steps, ByConsumer(Get));
    run := before + [ByConsumer(Get)];
    var t := s.(consumer := Stopping(Expected(src)), queue := [], taken := s.taken + 1);
    Extend(src, maxSize, run, t, steps + 1, ByConsumer(SetStop));
    run, t := run + [ByConsumer(SetStop)], t.(stopped := true, consumer := Cancelling(Expected(src)));
    Extend(src, maxSize, run, t, steps + 2, ByConsumer(RequestCancel(false)));
    run := run + [ByConsumer(RequestCancel(false))];
  }

  /** No smaller bound holds: every stream that opens has a run of exactly so many steps, with no put retried. */
  lemma BoundedWorkIsReached(src: Source, maxSize: int) returns (run: seq<Action>)
    requires src.openError.None?
    ensures Steps(src, maxSize, run) == 5 * |src.chunks| + 9
  {
    var n := |src.chunks|;
    run := ChunksTakeFive(src, maxSize, n);
    run := PutMarker(src, maxSize, run, 5 * n + 2);
    var s := Between(src, n).(producer := Finished, closes := 1, queue := [Marker(src)],
                              puts := AsItems(src.chunks[..n]) + [Marker(src)]);
    run := TakeMarker(src, maxSize, run, s, 5 * n + 6);
  }
}
