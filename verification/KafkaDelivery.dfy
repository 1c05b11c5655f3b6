/**
  The delivery protocol of the Kafka producer wrapper.

  A `World` is what a run leaves behind outside the wrapper's counters: which messages
  wait in the client, which were acknowledged or refused, which records reached the
  dead-letter topic and which lines reached the local fallback file.  The pure half of
  this module says how one call or one delivery report changes the world; the class
  `KafkaProducerWrapper` keeps the counters in place and is proved to follow it.
  Everything the environment decides (does `produce` raise, what does `poll` deliver,
  can the fallback file be written) is an argument.
*/
module KafkaDelivery {

  datatype Backend = Confluent | KafkaPython

  /** Where a dead-letter record or a fallback line comes from: the n-th `send`, or the n-th bad row. */
  datatype Origin = Message(id: nat) | BadRow(id: nat)

  /** The fate of one `produce`/`send` call on the client. */
  datatype Attempt = Enqueued | BufferFull | Raised

  /** The environment's answers while one failed message is handled: is the dead-letter
      record accepted, does the fallback write succeed, does the second one. */
  datatype Handling = Handling(accepted: bool, write: bool, rewrite: bool)

  /** One delivery report: of a message, or of a dead-letter record. */
  datatype Report =
    | MainReport(id: nat, ok: bool, handling: Handling)
    | DlqReport(origin: Origin, ok: bool, write: bool)

  /** What became of the messages given to `send`, numbered 0, 1, ... */
  datatype Messages = Messages(
    sends: nat,
    toDlq: set<nat>,               // addressed to the dead-letter topic itself
    rejected: multiset<nat>,       // turned away because the producer is closed
    escaped: multiset<nat>,        // serialisation raised out of send
    refused: multiset<nat>,        // the client did not take the message
    waiting: multiset<nat>,        // taken, no report yet
    acked: multiset<nat>,
    nacked: multiset<nat>)
  {
    /** Numbers the next message. */
    function Number(addressedToDlq: bool): Messages {
      this.(sends := sends + 1, toDlq := if addressedToDlq then toDlq + {sends} else toDlq)
    }

    function Reject(i: nat): Messages { this.(rejected := rejected + multiset{i}) }

    function Escape(i: nat): Messages { this.(escaped := escaped + multiset{i}) }

    function Refuse(i: nat): Messages { this.(refused := refused + multiset{i}) }

    function Enqueue(i: nat): Messages { this.(waiting := waiting + multiset{i}) }

    function Ack(i: nat): Messages { this.(waiting := waiting - multiset{i}, acked := acked + multiset{i}) }

    function Nack(i: nat): Messages { this.(waiting := waiting - multiset{i}, nacked := nacked + multiset{i}) }

    /** Calls of send that got past the closed check and are accounted for. */
    function Attempts(): nat {
      |escaped| + |refused| + Taken()
    }

    /** Messages the client has taken. */
    function Taken(): nat {
      |waiting| + |acked| + |nacked|
    }
  }

  /** What became of the failures and of the bad rows. */
  datatype DeadLetters = DeadLetters(
    rows: nat,                     // calls of send_bad_row
    blocked: multiset<nat>,        // failed messages addressed to the dead-letter topic
    waiting: multiset<Origin>,
    acked: multiset<Origin>,
    nacked: multiset<Origin>,
    lines: multiset<Origin>,       // lines of the fallback file
    lost: multiset<Origin>,        // the fallback file could not be written
    doubled: nat)                  // in-callback handlings counted twice
  {
    function Block(i: nat): DeadLetters { this.(blocked := blocked + multiset{i}) }

    function Enqueue(o: Origin): DeadLetters { this.(waiting := waiting + multiset{o}) }

    function Ack(o: Origin): DeadLetters { this.(waiting := waiting - multiset{o}, acked := acked + multiset{o}) }

    function Nack(o: Origin): DeadLetters { this.(waiting := waiting - multiset{o}, nacked := nacked + multiset{o}) }

    function Fallback(o: Origin, ok: bool): DeadLetters {
      if ok then this.(lines := lines + multiset{o}) else this.(lost := lost + multiset{o})
    }

    function Failures(): nat {
      |blocked| + |lines| + |lost| + doubled
    }

    /** Records the client has taken. */
    function Taken(): nat {
      |waiting| + |acked| + |nacked|
    }
  }

  /** `calls` counts the produce, send and poll calls made on the client. */
  datatype World = World(m: Messages, d: DeadLetters, calls: nat) {
    function Call(): World { this.(calls := calls + 1) }

    function Enqueue(i: nat): World { this.(m := m.Enqueue(i)) }

    function Fallback(o: Origin, ok: bool): World { this.(d := d.Fallback(o, ok)) }

    /** Messages and dead-letter records taken by the client. */
    function TotalEnqueued(): nat {
      m.Taken() + d.Taken()
    }

    predicate Settled() {
      m.waiting == multiset{} && d.waiting == multiset{}
    }
  }

  const EMPTY_WORLD := World(
    Messages(0, {}, multiset{}, multiset{}, multiset{}, multiset{}, multiset{}, multiset{}),
    DeadLetters(0, multiset{}, multiset{}, multiset{}, multiset{}, multiset{}, multiset{}, 0), 0)

  // ------------------------------------------------------------------ one step of the world

  /** One produce call towards the dead-letter topic, and the fallback if it raises. */
  function OfferDlq(w: World, o: Origin, accepted: bool, write: bool): World {
    var w := w.Call();
    if accepted then w.(d := w.d.Enqueue(o)) else w.Fallback(o, write)
  }

  function FallBackTwice(w: World, i: nat, h: Handling): World {
    if h.write then w.Fallback(Message(i), true)
    else w.(d := w.d.(doubled := w.d.doubled + 1)).Fallback(Message(i), h.rewrite)
  }

  /** A failed message handled inside its own delivery report. */
  function HandleInReport(b: Backend, w: World, i: nat, h: Handling): World {
    if i in w.m.toDlq then w.(d := w.d.Block(i))
    else if b.Confluent? then FallBackTwice(w, i, h)
    else OfferDlq(w, Message(i), h.accepted, h.write)
  }

  /** A failed message handled inside `send`; on Confluent an accepted record is followed by a poll. */
  function HandleInSend(b: Backend, w: World, i: nat, h: Handling, polled: seq<Report>): World {
    if i in w.m.toDlq then w.(d := w.d.Block(i))
    else OfferRow(b, w, Message(i), h.accepted, h.write, polled)
  }

  /** On kafka-python a failure is handled in its report as it is in send. */
  lemma HandlingOnPython(b: Backend, w: World, i: nat, h: Handling)
    ensures b.KafkaPython? ==> HandleInSend(b, w, i, h, []) == HandleInReport(b, w, i, h)
  {
    hide OfferDlq;
  }

  /** One report; reports about records that do not wait do not happen. */
  function Deliver(b: Backend, w: World, r: Report): World {
    match r
    case MainReport(i, ok, h) =>
      if i !in w.m.waiting then w
      else if ok then w.(m := w.m.Ack(i))
      else HandleInReport(b, w.(m := w.m.Nack(i)), i, h)
    case DlqReport(o, ok, write) =>
      if o !in w.d.waiting then w
      else if ok then w.(d := w.d.Ack(o))
      else w.(d := w.d.Nack(o)).Fallback(o, write)
  }

  function Serve(b: Backend, w: World, reports: seq<Report>): World {
    if reports == [] then w
    else Deliver(b, Serve(b, w, reports[..|reports| - 1]), reports[|reports| - 1])
  }

  /** The environment of one send: up to two produce calls, what each poll delivers, and the failure handling. */
  datatype SendEnv = SendEnv(first: Attempt, second: Attempt, atBufferFull: seq<Report>, afterProduce: seq<Report>,
                             handling: Handling, afterDlq: seq<Report>)

  function FailInSend(b: Backend, w: World, i: nat, e: SendEnv): World {
    HandleInSend(b, w.(m := w.m.Refuse(i)), i, e.handling, e.afterDlq)
  }

  function SendConfluentStep(b: Backend, w: World, i: nat, serialisable: bool, e: SendEnv): World {
    if !serialisable then w.(m := w.m.Escape(i))
    else match e.first
      case Enqueued => Serve(b, w.Call().Enqueue(i).Call(), e.afterProduce)
      case Raised => FailInSend(b, w.Call(), i, e)
      case BufferFull =>
        var w := Serve(b, w.Call().Call(), e.atBufferFull).Call();
        if e.second.Enqueued? then Serve(b, w.Enqueue(i).Call(), e.afterProduce) else FailInSend(b, w, i, e)
  }

  function SendPythonStep(b: Backend, w: World, i: nat, serialisable: bool, e: SendEnv): World {
    if e.first.Enqueued? && serialisable then w.Call().Enqueue(i) else FailInSend(b, w.Call(), i, e)
  }

  /** The message numbered w.m.sends is sent. */
  function SendStep(b: Backend, w: World, closed: bool, toDlq: bool, serialisable: bool, e: SendEnv): World {
    var i := w.m.sends;
    var w := w.(m := w.m.Number(toDlq));
    if closed then w.(m := w.m.Reject(i))
    else if b.Confluent? then SendConfluentStep(b, w, i, serialisable, e)
    else SendPythonStep(b, w, i, serialisable, e)
  }

  /** Numbers the next bad row. */
  function NewRow(w: World): World {
    w.(d := w.d.(rows := w.d.rows + 1))
  }

  /** The bad row numbered w.d.rows; rows from the dead-letter topic and rows after close only reach the file. */
  function BadRowStep(b: Backend, w: World, closed: bool, fromDlq: bool,
                      accepted: bool, write: bool, polled: seq<Report>): World {
    var o, w := BadRow(w.d.rows), NewRow(w);
    if fromDlq || closed then w.Fallback(o, write) else OfferRow(b, w, o, accepted, write, polled)
  }

  /** A record is offered; on Confluent an accepted one is followed by a poll. */
  function OfferRow(b: Backend, w: World, o: Origin, accepted: bool, write: bool, polled: seq<Report>): World {
    var w := OfferDlq(w, o, accepted, write);
    if b.Confluent? && accepted then Serve(b, w.Call(), polled) else w
  }

  datatype FlushOutcome = Flushed(remaining: nat) | FlushRaised

  // ------------------------------------------------------------------ the wrapper

  class KafkaProducerWrapper {
    const backend: Backend
    var closed: bool
    var inDeliveryCallback: bool
    var pendingDeliveries: nat
    var sendAttemptCount: nat
    var deliverySuccessCount: nat
    var deliveryFailureCount: nat
    var flushTimeoutCount: nat
    var dlqFailureCount: nat
    var world: World

    /** What the counters mean.  `limbo` is 1 while a counted send has not yet reached the client. */
    ghost predicate Counts(limbo: nat)
      reads this`world, this`sendAttemptCount, this`deliverySuccessCount
      reads this`deliveryFailureCount, this`pendingDeliveries, this`dlqFailureCount
    {
      && sendAttemptCount == world.m.Attempts() + limbo
      && deliverySuccessCount == |world.m.acked|
      && deliveryFailureCount == |world.m.rejected| + |world.m.refused| + |world.m.nacked|
      && pendingDeliveries == |world.m.waiting|
      && dlqFailureCount == world.d.Failures()
    }

    ghost predicate Valid()
      reads this
    {
      Counts(0) && !inDeliveryCallback
    }

    constructor (backend: Backend)
      ensures Valid() && world == EMPTY_WORLD && !closed && this.backend == backend
    {
      this.backend := backend;
      closed, inDeliveryCallback := false, false;
      pendingDeliveries, sendAttemptCount, deliverySuccessCount := 0, 0, 0;
      deliveryFailureCount, flushTimeoutCount, dlqFailureCount := 0, 0, 0;
      world := EMPTY_WORLD;
    }

    method DecrementPending()
      modifies `pendingDeliveries
      ensures pendingDeliveries == if old(pendingDeliveries) == 0 then 0 else old(pendingDeliveries) - 1
    {
      pendingDeliveries := if pendingDeliveries - 1 > 0 then pendingDeliveries - 1 else 0;
    }

    /** A produce, send or poll call on the client. */
    method CallClient(ghost limbo: nat)
      requires Counts(limbo)
      modifies `world
      ensures Counts(limbo)
      ensures world == old(world).Call()
    {
      world := world.Call();
    }

    /** The client has taken the message that is being sent: `_increment_pending`. */
    method TakeMessage(i: nat)
      requires Counts(1)
      modifies `world, `pendingDeliveries
      ensures Counts(0)
      ensures world == old(world).Enqueue(i)
    {
      world := world.Enqueue(i);
      pendingDeliveries := pendingDeliveries + 1;
    }

    /** Offers a record to the dead-letter topic; when the client raises, the fallback file is tried. */
    method OfferToDlq(o: Origin, accepted: bool, write: bool, ghost limbo: nat)
      requires Counts(limbo)
      modifies `world, `dlqFailureCount
      ensures Counts(limbo)
      ensures world == OfferDlq(old(world), o, accepted, write)
    {
      world := world.Call();
      if accepted {
        world := world.(d := world.d.Enqueue(o));
      } else {
        FallBack(o, write, limbo);
      }
    }

    /** Counts a dead-letter failure and writes the fallback line. */
    method FallBack(o: Origin, ok: bool, ghost limbo: nat)
      requires Counts(limbo)
      modifies `world, `dlqFailureCount
      ensures Counts(limbo)
      ensures world == old(world).Fallback(o, ok)
    {
      dlqFailureCount := dlqFailureCount + 1;
      world := world.Fallback(o, ok);
    }

    /** `_handle_delivery_failure`.  Only outside a callback can it poll, and so serve reports. */
    method HandleDeliveryFailure(i: nat, h: Handling, polled: seq<Report>, ghost limbo: nat)
      requires Counts(limbo)
      requires inDeliveryCallback ==> backend.Confluent?
      modifies this
      ensures Counts(limbo)
      ensures closed == old(closed) && inDeliveryCallback == old(inDeliveryCallback)
      ensures flushTimeoutCount == old(flushTimeoutCount)
      ensures world == if old(inDeliveryCallback) then HandleInReport(backend, old(world), i, h)
                       else HandleInSend(backend, old(world), i, h, polled)
      decreases if inDeliveryCallback then 0 else 3
    {
      hide OfferRow, FallBackTwice;
      if i in world.m.toDlq {
        dlqFailureCount := dlqFailureCount + 1;
        world := world.(d := world.d.Block(i));
      } else if backend.Confluent? && inDeliveryCallback {
        FallBackInCallback(i, h, limbo);
      } else {
        OfferAndPoll(Message(i), h.accepted, h.write, polled, limbo);
      }
    }

    /** Offers a record; on Confluent an accepted one is followed by a poll. */
    method OfferAndPoll(o: Origin, accepted: bool, write: bool, polled: seq<Report>, ghost limbo: nat)
      requires Counts(limbo) && !inDeliveryCallback
      modifies this
      ensures Counts(limbo) && !inDeliveryCallback
      ensures closed == old(closed) && flushTimeoutCount == old(flushTimeoutCount)
      ensures world == OfferRow(backend, old(world), o, accepted, write, polled)
      decreases 3, 0
    {
      hide Counts, OfferDlq, Serve, World.Call;
      OfferToDlq(o, accepted, write, limbo);
      if backend.Confluent? && accepted {
        Poll(polled, limbo);
      }
    }

    /** Inside a Confluent callback no record may be produced.  A write that fails raises into
        the handler, which counts the failure again and writes again. */
    method FallBackInCallback(i: nat, h: Handling, ghost limbo: nat)
      requires Counts(limbo)
      modifies `world, `dlqFailureCount
      ensures Counts(limbo)
      ensures world == FallBackTwice(old(world), i, h)
    {
      if h.write {
        FallBack(Message(i), true, limbo);
      } else {
        dlqFailureCount := dlqFailureCount + 1;
        world := world.(d := world.d.(doubled := world.d.doubled + 1));
        FallBack(Message(i), h.rewrite, limbo);
      }
    }

    /** A message is acknowledged: `on_success`, or `on_delivery` without an error. */
    method OnAck(i: nat, ghost limbo: nat)
      requires Counts(limbo) && i in world.m.waiting
      modifies `world, `pendingDeliveries, `deliverySuccessCount
      ensures Counts(limbo)
      ensures world == old(world).(m := old(world).m.Ack(i))
    {
      DecrementPending();
      world := world.(m := world.m.Ack(i));
      deliverySuccessCount := deliverySuccessCount + 1;
    }

    /** A message is refused by the broker: the counters move ... */
    method CountNack(i: nat, ghost limbo: nat)
      requires Counts(limbo) && i in world.m.waiting
      modifies `world, `pendingDeliveries, `deliveryFailureCount
      ensures Counts(limbo)
      ensures world == old(world).(m := old(world).m.Nack(i))
    {
      DecrementPending();
      world := world.(m := world.m.Nack(i));
      deliveryFailureCount := deliveryFailureCount + 1;
    }

    /** ... and the failure is handled: `on_failure`, or `on_delivery` with an error. */
    method OnNack(i: nat, h: Handling, ghost limbo: nat)
      requires Counts(limbo) && !inDeliveryCallback && i in world.m.waiting
      modifies this
      ensures Counts(limbo) && !inDeliveryCallback
      ensures closed == old(closed) && flushTimeoutCount == old(flushTimeoutCount)
      ensures world == Deliver(backend, old(world), MainReport(i, false, h))
      decreases if backend.Confluent? then 1 else 4, 0
    {
      hide HandleInReport, HandleInSend, Messages.Nack, Counts;
      CountNack(i, limbo);
      HandlingOnPython(backend, world, i, h);
      inDeliveryCallback := backend.Confluent?;
      HandleDeliveryFailure(i, h, [], limbo);
      inDeliveryCallback := false;
    }

    /** The callbacks of a dead-letter record; a failure goes to `_record_dlq_delivery_failure`. */
    method OnDlqReport(o: Origin, ok: bool, write: bool, ghost limbo: nat)
      requires Counts(limbo) && o in world.d.waiting
      modifies `world, `dlqFailureCount
      ensures Counts(limbo)
      ensures world == Deliver(backend, old(world), DlqReport(o, ok, write))
      ensures dlqFailureCount == old(dlqFailureCount) + if ok then 0 else 1
      ensures ok ==> world.d.acked == old(world).d.acked + multiset{o} && world.d.lines == old(world).d.lines
      ensures !ok ==> world.d.nacked == old(world).d.nacked + multiset{o}
                      && if write then world.d.lines == old(world).d.lines + multiset{o}
                         else world.d.lost == old(world).d.lost + multiset{o}
    {
      if ok {
        world := world.(d := world.d.Ack(o));
      } else {
        world := world.(d := world.d.Nack(o));
        FallBack(o, write, limbo);
      }
    }

    /** The client runs the callbacks of one record. */
    method RunCallback(r: Report, ghost limbo: nat)
      requires Counts(limbo) && !inDeliveryCallback
      modifies this
      ensures Counts(limbo) && !inDeliveryCallback
      ensures closed == old(closed) && flushTimeoutCount == old(flushTimeoutCount)
      ensures world == Deliver(backend, old(world), r)
      decreases if backend.Confluent? then 1 else 4, 1
    {
      hide Counts, HandleInReport, Messages.Ack, Messages.Nack, DeadLetters.Ack, DeadLetters.Nack, World.Fallback;
      match r
      case MainReport(i, ok, h) =>
        if i in world.m.waiting {
          if ok {
            OnAck(i, limbo);
          } else {
            OnNack(i, h, limbo);
          }
        }
      case DlqReport(o, ok, write) =>
        if o in world.d.waiting {
          OnDlqReport(o, ok, write, limbo);
        }
    }

    method RunCallbacks(reports: seq<Report>, ghost limbo: nat)
      requires Counts(limbo) && !inDeliveryCallback
      modifies this
      ensures Counts(limbo) && !inDeliveryCallback
      ensures closed == old(closed) && flushTimeoutCount == old(flushTimeoutCount)
      ensures world == Serve(backend, old(world), reports)
      decreases if backend.Confluent? then 1 else 4, 2
    {
      hide Counts, Deliver;
      for k := 0 to |reports|
        invariant Counts(limbo) && !inDeliveryCallback
        invariant closed == old(closed) && flushTimeoutCount == old(flushTimeoutCount)
        invariant world == Serve(backend, old(world), reports[..k])
      {
        assert reports[..k + 1][..k] == reports[..k];
        RunCallback(reports[k], limbo);
      }
      assert reports[..|reports|] == reports;
    }

    /** `producer.poll`, Confluent only. */
    method Poll(reports: seq<Report>, ghost limbo: nat)
      requires backend.Confluent?
      requires Counts(limbo) && !inDeliveryCallback
      modifies this
      ensures Counts(limbo) && !inDeliveryCallback
      ensures closed == old(closed) && flushTimeoutCount == old(flushTimeoutCount)
      ensures world == Serve(backend, old(world).Call(), reports)
      decreases 2
    {
      CallClient(limbo);
      hide Counts, Serve, World.Call;
      RunCallbacks(reports, limbo);
    }

    method Send(toDlq: bool, serialisable: bool, e: SendEnv)
      requires Valid()
      modifies this
      ensures Valid() && closed == old(closed) && flushTimeoutCount == old(flushTimeoutCount)
      ensures world == SendStep(backend, old(world), old(closed), toDlq, serialisable, e)
    {
      var i := world.m.sends;
      world := world.(m := world.m.Number(toDlq));
      if closed {
        deliveryFailureCount := deliveryFailureCount + 1;
        world := world.(m := world.m.Reject(i));
        return;
      }
      sendAttemptCount := sendAttemptCount + 1;
      if backend.Confluent? {
        SendConfluent(i, serialisable, e);
      } else {
        SendPython(i, serialisable, e);
      }
    }

    /** The rest of `send` on kafka-python; a value that does not serialise makes the client raise. */
    method SendPython(i: nat, serialisable: bool, e: SendEnv)
      requires backend.KafkaPython? && Counts(1) && !inDeliveryCallback
      modifies this
      ensures Valid() && closed == old(closed) && flushTimeoutCount == old(flushTimeoutCount)
      ensures world == SendPythonStep(backend, old(world), i, serialisable, e)
    {
      hide Counts, FailInSend, World.Call, World.Enqueue;
      CallClient(1);
      if e.first.Enqueued? && serialisable {
        TakeMessage(i);
      } else {
        FailSend(i, e);
      }
    }

    /** The except branches of send: count the failure, then handle it. */
    method FailSend(i: nat, e: SendEnv)
      requires Counts(1) && !inDeliveryCallback
      modifies this
      ensures Valid() && closed == old(closed) && flushTimeoutCount == old(flushTimeoutCount)
      ensures world == FailInSend(backend, old(world), i, e)
    {
      deliveryFailureCount := deliveryFailureCount + 1;
      world := world.(m := world.m.Refuse(i));
      HandleDeliveryFailure(i, e.handling, e.afterDlq, 0);
    }

    method SendConfluent(i: nat, serialisable: bool, e: SendEnv)
      requires backend.Confluent? && Counts(1) && !inDeliveryCallback
      modifies this
      ensures Valid() && closed == old(closed) && flushTimeoutCount == old(flushTimeoutCount)
      ensures world == SendConfluentStep(backend, old(world), i, serialisable, e)
    {
      if !serialisable {
        world := world.(m := world.m.Escape(i));  // the exception leaves send here
        return;
      }
      hide Counts, FailInSend, Serve, World.Call, World.Enqueue;
      CallClient(1);
      match e.first {
        case Enqueued =>
          TakeMessage(i);
          Poll(e.afterProduce, 0);
        case Raised =>
          FailSend(i, e);
        case BufferFull =>
          Poll(e.atBufferFull, 1);
          CallClient(1);
          if e.second.Enqueued? {
            TakeMessage(i);
            Poll(e.afterProduce, 0);
          } else {
            FailSend(i, e);
          }
      }
    }

    /** The next bad row. */
    method NumberRow() returns (o: Origin)
      requires Counts(0)
      modifies `world
      ensures Counts(0)
      ensures o == BadRow(old(world).d.rows)
      ensures world == NewRow(old(world))
    {
      o := BadRow(world.d.rows);
      world := NewRow(world);
    }

    method SendBadRow(fromDlq: bool, accepted: bool, write: bool, polled: seq<Report>)
      requires Valid()
      modifies this
      ensures Valid() && closed == old(closed) && flushTimeoutCount == old(flushTimeoutCount)
      ensures world == BadRowStep(backend, old(world), old(closed), fromDlq, accepted, write, polled)
    {
      var o := NumberRow();
      hide Counts, OfferRow, NewRow, World.Fallback;
      if fromDlq || closed {
        FallBack(o, write, 0);
      } else {
        OfferAndPoll(o, accepted, write, polled, 0);
      }
    }

    /** `flush`: the client runs callbacks, then reports what is left. */
    method Flush(served: seq<Report>, outcome: FlushOutcome)
      requires Valid()
      modifies this
      ensures Valid() && closed == old(closed)
      ensures world == Serve(backend, old(world), served)
      ensures flushTimeoutCount == old(flushTimeoutCount) +
              if outcome.FlushRaised? || (if backend.Confluent? then outcome.remaining > 0 else |world.m.waiting| > 0)
              then 1 else 0
    {
      RunCallbacks(served, 0);
      if outcome.FlushRaised? {
        flushTimeoutCount := flushTimeoutCount + 1;
        return;
      }
      if backend.Confluent? && outcome.remaining > 0 {
        flushTimeoutCount := flushTimeoutCount + 1;
      } else if backend.KafkaPython? && pendingDeliveries > 0 {
        flushTimeoutCount := flushTimeoutCount + 1;
      }
    }

    /** `close` flushes once; later calls change nothing. */
    method Close(served: seq<Report>, outcome: FlushOutcome)
      requires Valid()
      modifies this
      ensures Valid() && closed
      ensures world == if old(closed) then old(world) else Serve(backend, old(world), served)
      ensures old(closed) ==> flushTimeoutCount == old(flushTimeoutCount)
    {
      if closed {
        return;
      }
      closed := true;
      Flush(served, outcome);
    }
  }

  /** Delivery conservation.  Exactly the messages whose serialisation raised out of send disturb it. */
  lemma Conservation(k: KafkaProducerWrapper)
    requires k.Valid()
    ensures k.deliveryFailureCount >= |k.world.m.rejected|
    ensures k.sendAttemptCount == k.deliverySuccessCount + (k.deliveryFailureCount - |k.world.m.rejected|)
                                  + k.pendingDeliveries
            <==> k.world.m.escaped == multiset{}
    ensures k.pendingDeliveries == |k.world.m.waiting|
  {
  }
}
