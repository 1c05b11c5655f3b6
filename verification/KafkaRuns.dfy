/**
  Whole runs of the Kafka producer wrapper: where every message and every bad row ends up,
  and how many records a run can put on the broker.
*/
module KafkaRuns {
  import opened KafkaDelivery
  import opened PyText

  /** What callers and the client do to the wrapper.  `Callbacks` is the kafka-python sender thread. */
  datatype Event =
    | Send(toDlq: bool, serialisable: bool, env: SendEnv)
    | SendBadRow(fromDlq: bool, accepted: bool, write: bool, polled: seq<Report>)
    | Callbacks(reports: seq<Report>)
    | Flush(served: seq<Report>)
    | Close(served: seq<Report>)

  datatype State = State(w: World, closed: bool)

  function Step(b: Backend, s: State, e: Event): State {
    match e
    case Send(toDlq, serialisable, env) => s.(w := SendStep(b, s.w, s.closed, toDlq, serialisable, env))
    case SendBadRow(fromDlq, accepted, write, polled) =>
      s.(w := BadRowStep(b, s.w, s.closed, fromDlq, accepted, write, polled))
    case Callbacks(reports) => if b.KafkaPython? then s.(w := Serve(b, s.w, reports)) else s
    case Flush(served) => s.(w := Serve(b, s.w, served))
    case Close(served) => if s.closed then s else State(Serve(b, s.w, served), true)
  }

  function Run(b: Backend, events: seq<Event>): State {
    if events == [] then State(EMPTY_WORLD, false)
    else Step(b, Run(b, events[..|events| - 1]), events[|events| - 1])
  }

  // ------------------------------------------------------------------ the invariant

  function Fates(m: Messages, i: nat): nat {
    m.rejected[i] + m.escaped[i] + m.refused[i] + m.waiting[i] + m.acked[i] + m.nacked[i]
  }

  /** Every numbered message has exactly one fate; `limbo` holds the one being sent. */
  ghost predicate OneFate(m: Messages, limbo: multiset<nat>) {
    && (forall i: nat :: Fates(m, i) + limbo[i] == if i < m.sends then 1 else 0)
    && (forall i | i in m.toDlq :: i < m.sends)
  }

  /** Everything that stands for an origin on the dead-letter side; a record that failed counts by its line. */
  function Dispositions(d: DeadLetters, o: Origin): nat {
    d.waiting[o] + d.acked[o] + d.lines[o] + d.lost[o]
  }

  /** Every failed message has exactly one disposition; `unhandled` holds failures not yet handled. */
  ghost predicate MessagesDisposed(w: World, unhandled: multiset<nat>) {
    forall i: nat ::
      && (i in w.m.toDlq ==> Dispositions(w.d, Message(i)) == 0)
      && (i !in w.m.toDlq ==> w.d.blocked[i] == 0)
      && Dispositions(w.d, Message(i)) + w.d.blocked[i] + unhandled[i] == w.m.refused[i] + w.m.nacked[i]
  }

  /** Every bad row has exactly one disposition. */
  ghost predicate RowsDisposed(d: DeadLetters) {
    forall j: nat :: Dispositions(d, BadRow(j)) == if j < d.rows then 1 else 0
  }

  /** Dead-letter records taken by the client, with room for `slack` more. */
  predicate Bounded(b: Backend, w: World, slack: nat) {
    w.d.Taken() + slack
    <= |w.m.refused| + (if b.KafkaPython? then |w.m.nacked| else 0) + w.d.rows
  }

  /** The dead-letter side, with failures still to handle and room for `slack` records. */
  ghost predicate Disposed(b: Backend, w: World, unhandled: multiset<nat>, slack: nat) {
    && MessagesDisposed(w, unhandled)
    && RowsDisposed(w.d)
    && Bounded(b, w, slack)
  }

  ghost predicate Inv(b: Backend, w: World, limbo: multiset<nat>) {
    OneFate(w.m, limbo) && Disposed(b, w, multiset{}, 0)
  }

  // ------------------------------------------------------------------ every step keeps it

  lemma BlockDisposes(b: Backend, w: World, i: nat, slack: nat)
    requires i in w.m.toDlq && Disposed(b, w, multiset{i}, slack)
    ensures Disposed(b, w.(d := w.d.Block(i)), multiset{}, 0)
  {
    var d' := w.d.Block(i);
    assert forall o :: Dispositions(d', o) == Dispositions(w.d, o);
  }

  lemma FallbackCounts(d: DeadLetters, o: Origin, ok: bool)
    ensures forall p :: Dispositions(d.Fallback(o, ok), p) == Dispositions(d, p) + if p == o then 1 else 0
  {
  }

  lemma EnqueueCounts(d: DeadLetters, o: Origin)
    ensures forall p :: Dispositions(d.Enqueue(o), p) == Dispositions(d, p) + if p == o then 1 else 0
  {
  }

  lemma FallbackDisposes(b: Backend, w: World, i: nat, ok: bool)
    requires i !in w.m.toDlq && Disposed(b, w, multiset{i}, 0)
    ensures Disposed(b, w.Fallback(Message(i), ok), multiset{}, 0)
  {
    var d' := w.d.Fallback(Message(i), ok);
    assert d'.Taken() == w.d.Taken() && d'.rows == w.d.rows && d'.blocked == w.d.blocked;
    FallbackCounts(w.d, Message(i), ok);
    hide Dispositions, MessagesDisposed, RowsDisposed, DeadLetters.Taken;
    OneMoreDisposes(b, w, i, d');
  }

  lemma OfferDisposes(b: Backend, w: World, i: nat, accepted: bool, write: bool)
    requires i !in w.m.toDlq && Disposed(b, w, multiset{i}, 1)
    ensures Disposed(b, OfferDlq(w, Message(i), accepted, write), multiset{}, 0)
  {
    if accepted {
      EnqueueCounts(w.d, Message(i));
      EnqueueTaken(w.d, Message(i));
      OneMoreDisposes(b, w, i, w.d.Enqueue(Message(i)));
      UncountedChange(b, w.(d := w.d.Enqueue(Message(i))), w.(d := w.d.Enqueue(Message(i))).Call(), multiset{}, 0);
    } else {
      LessSlack(b, w, multiset{i});
      FallbackDisposes(b, w, i, write);
      UncountedChange(b, w.Fallback(Message(i), write), w.Call().Fallback(Message(i), write), multiset{}, 0);
    }
  }

  lemma EnqueueTaken(d: DeadLetters, o: Origin)
    ensures d.Enqueue(o).Taken() == d.Taken() + 1
  {
  }

  lemma LessSlack(b: Backend, w: World, unhandled: multiset<nat>)
    requires Disposed(b, w, unhandled, 1)
    ensures Disposed(b, w, unhandled, 0)
  {
    hide MessagesDisposed, RowsDisposed;
  }

  /** One disposition more for the unhandled message settles it. */
  lemma OneMoreDisposes(b: Backend, w: World, i: nat, d': DeadLetters)
    requires i !in w.m.toDlq && MessagesDisposed(w, multiset{i}) && RowsDisposed(w.d)
    requires d'.rows == w.d.rows && d'.blocked == w.d.blocked
    requires forall p :: Dispositions(d', p) == Dispositions(w.d, p) + if p == Message(i) then 1 else 0
    requires Bounded(b, w.(d := d'), 0)
    ensures Disposed(b, w.(d := d'), multiset{}, 0)
  {
    hide Dispositions, Bounded;
  }

  /** Client calls and doubled counts do not matter to the invariant. */
  lemma UncountedChange(b: Backend, w: World, w': World, unhandled: multiset<nat>, slack: nat)
    requires Disposed(b, w, unhandled, slack)
    requires w'.m == w.m && w'.d == w.d.(doubled := w'.d.doubled)
    ensures Disposed(b, w', unhandled, slack)
  {
    assert forall o :: Dispositions(w'.d, o) == Dispositions(w.d, o);
  }

  lemma NackOpens(b: Backend, w: World, i: nat, limbo: multiset<nat>)
    requires Inv(b, w, limbo) && i in w.m.waiting
    ensures var w' := w.(m := w.m.Nack(i));
            OneFate(w'.m, limbo) && Disposed(b, w', multiset{i}, if b.KafkaPython? then 1 else 0)
  {
    var m' := w.m.Nack(i);
    assert forall k: nat :: Fates(m', k) == Fates(w.m, k);
  }

  lemma NackKeeps(b: Backend, w: World, i: nat, h: Handling, limbo: multiset<nat>)
    requires Inv(b, w, limbo) && i in w.m.waiting
    ensures Inv(b, HandleInReport(b, w.(m := w.m.Nack(i)), i, h), limbo)
  {
    hide OneFate, MessagesDisposed, RowsDisposed, Bounded;
    var w1 := w.(m := w.m.Nack(i));
    NackOpens(b, w, i, limbo);
    if i in w1.m.toDlq {
      BlockDisposes(b, w1, i, if b.KafkaPython? then 1 else 0);
    } else if b.KafkaPython? {
      OfferDisposes(b, w1, i, h.accepted, h.write);
    } else if h.write {
      FallbackDisposes(b, w1, i, true);
    } else {
      UncountedChange(b, w1, w1.(d := w1.d.(doubled := w1.d.doubled + 1)), multiset{i}, 0);
      FallbackDisposes(b, w1.(d := w1.d.(doubled := w1.d.doubled + 1)), i, h.rewrite);
    }
  }

  lemma AckKeeps(b: Backend, w: World, i: nat, limbo: multiset<nat>)
    requires Inv(b, w, limbo) && i in w.m.waiting
    ensures Inv(b, w.(m := w.m.Ack(i)), limbo)
  {
    var m' := w.m.Ack(i);
    assert forall k: nat :: Fates(m', k) == Fates(w.m, k);
  }

  lemma DlqReportKeeps(b: Backend, w: World, o: Origin, ok: bool, write: bool, limbo: multiset<nat>)
    requires Inv(b, w, limbo) && o in w.d.waiting
    ensures Inv(b, if ok then w.(d := w.d.Ack(o)) else w.(d := w.d.Nack(o)).Fallback(o, write), limbo)
  {
    var d' := if ok then w.d.Ack(o) else w.(d := w.d.Nack(o)).Fallback(o, write).d;
    DlqReportCounts(w.d, o, write);
    DlqReportTaken(w.d, o);
    SameDispositionsKeep(b, w, d', limbo);
  }

  /** An acknowledged record stays the origin's disposition, a failed one is replaced by its line. */
  lemma DlqReportCounts(d: DeadLetters, o: Origin, write: bool)
    requires o in d.waiting
    ensures forall p :: Dispositions(d.Ack(o), p) == Dispositions(d, p)
    ensures forall p :: Dispositions(d.Nack(o).Fallback(o, write), p) == Dispositions(d, p)
  {
    FallbackCounts(d.Nack(o), o, write);
    assert forall p :: Dispositions(d.Nack(o), p) == Dispositions(d, p) - if p == o then 1 else 0;
  }

  lemma SameDispositionsKeep(b: Backend, w: World, d': DeadLetters, limbo: multiset<nat>)
    requires Inv(b, w, limbo) && d'.rows == w.d.rows && d'.blocked == w.d.blocked && d'.Taken() <= w.d.Taken()
    requires forall p :: Dispositions(d', p) == Dispositions(w.d, p)
    ensures Inv(b, w.(d := d'), limbo)
  {
    hide Dispositions, Fates, DeadLetters.Taken;
  }

  lemma DeliverKeeps(b: Backend, w: World, r: Report, limbo: multiset<nat>)
    requires Inv(b, w, limbo)
    ensures Inv(b, Deliver(b, w, r), limbo)
  {
    match r
    case MainReport(i, ok, h) =>
      if i in w.m.waiting {
        if ok {
          AckKeeps(b, w, i, limbo);
        } else {
          NackKeeps(b, w, i, h, limbo);
        }
      }
    case DlqReport(o, ok, write) =>
      if o in w.d.waiting {
        DlqReportKeeps(b, w, o, ok, write, limbo);
      }
  }

  lemma {:induction false} ServeKeeps(b: Backend, w: World, reports: seq<Report>, limbo: multiset<nat>)
    requires Inv(b, w, limbo)
    ensures Inv(b, Serve(b, w, reports), limbo)
  {
    if reports != [] {
      ServeKeeps(b, w, reports[..|reports| - 1], limbo);
      DeliverKeeps(b, Serve(b, w, reports[..|reports| - 1]), reports[|reports| - 1], limbo);
    }
  }

  lemma RefuseOpens(b: Backend, w: World, i: nat)
    requires Inv(b, w, multiset{i})
    ensures var w' := w.(m := w.m.Refuse(i));
            OneFate(w'.m, multiset{}) && Disposed(b, w', multiset{i}, 1)
  {
    var m' := w.m.Refuse(i);
    assert forall k: nat :: Fates(m', k) == Fates(w.m, k) + multiset{i}[k];
  }

  lemma EnqueueKeeps(b: Backend, w: World, i: nat)
    requires Inv(b, w, multiset{i})
    ensures Inv(b, w.Enqueue(i), multiset{})
  {
    var m' := w.m.Enqueue(i);
    assert forall k: nat :: Fates(m', k) == Fates(w.m, k) + multiset{i}[k];
  }

  lemma FailInSendKeeps(b: Backend, w: World, i: nat, e: SendEnv)
    requires Inv(b, w, multiset{i})
    ensures Inv(b, FailInSend(b, w, i, e), multiset{})
  {
    hide OneFate, MessagesDisposed, RowsDisposed, Bounded;
    var w1 := w.(m := w.m.Refuse(i));
    RefuseOpens(b, w, i);
    if i in w1.m.toDlq {
      BlockDisposes(b, w1, i, 1);
    } else {
      OfferDisposes(b, w1, i, e.handling.accepted, e.handling.write);
      var w2 := OfferDlq(w1, Message(i), e.handling.accepted, e.handling.write);
      UncountedChange(b, w2, w2.Call(), multiset{}, 0);
      ServeKeeps(b, w2.Call(), e.afterDlq, multiset{});
    }
  }

  lemma SendConfluentKeeps(b: Backend, w: World, i: nat, serialisable: bool, e: SendEnv)
    requires Inv(b, w, multiset{i})
    ensures Inv(b, SendConfluentStep(b, w, i, serialisable, e), multiset{})
  {
    if !serialisable {
      var m' := w.m.Escape(i);
      assert forall k: nat :: Fates(m', k) == Fates(w.m, k) + multiset{i}[k];
    } else {
      SerialisedKeeps(b, w, i, e);
    }
  }

  lemma CallKeeps(b: Backend, w: World, limbo: multiset<nat>)
    requires Inv(b, w, limbo)
    ensures Inv(b, w.Call(), limbo)
  {
    UncountedChange(b, w, w.Call(), multiset{}, 0);
  }

  lemma SerialisedKeeps(b: Backend, w: World, i: nat, e: SendEnv)
    requires Inv(b, w, multiset{i})
    ensures Inv(b, SendConfluentStep(b, w, i, true, e), multiset{})
  {
    hide Inv, FailInSend, Serve;
    CallKeeps(b, w, multiset{i});
    match e.first
    case Enqueued =>
      ProducedKeeps(b, w.Call(), i, e.afterProduce);
    case Raised =>
      FailInSendKeeps(b, w.Call(), i, e);
    case BufferFull =>
      CallKeeps(b, w.Call(), multiset{i});
      ServeKeeps(b, w.Call().Call(), e.atBufferFull, multiset{i});
      var w1 := Serve(b, w.Call().Call(), e.atBufferFull);
      CallKeeps(b, w1, multiset{i});
      if e.second.Enqueued? {
        ProducedKeeps(b, w1.Call(), i, e.afterProduce);
      } else {
        FailInSendKeeps(b, w1.Call(), i, e);
      }
  }

  /** A message is taken, and the poll after it serves reports. */
  lemma {:induction false} ProducedKeeps(b: Backend, w: World, i: nat, reports: seq<Report>)
    requires Inv(b, w, multiset{i})
    ensures Inv(b, Serve(b, w.Enqueue(i).Call(), reports), multiset{})
  {
    hide Inv, Serve;
    EnqueueKeeps(b, w, i);
    CallKeeps(b, w.Enqueue(i), multiset{});
    ServeKeeps(b, w.Enqueue(i).Call(), reports, multiset{});
  }

  lemma NumberKeeps(b: Backend, w: World, toDlq: bool)
    requires Inv(b, w, multiset{})
    ensures Inv(b, w.(m := w.m.Number(toDlq)), multiset{w.m.sends})
  {
    var m' := w.m.Number(toDlq);
    assert forall k: nat :: Fates(m', k) == Fates(w.m, k);
    assert Fates(w.m, w.m.sends) == 0;
  }

  lemma SendKeeps(b: Backend, w: World, closed: bool, toDlq: bool, serialisable: bool, e: SendEnv)
    requires Inv(b, w, multiset{})
    ensures Inv(b, SendStep(b, w, closed, toDlq, serialisable, e), multiset{})
  {
    hide Inv, SendConfluentStep, FailInSend, Messages.Reject, Messages.Number, World.Call, World.Enqueue;
    var i := w.m.sends;
    var w1 := w.(m := w.m.Number(toDlq));
    NumberKeeps(b, w, toDlq);
    CallKeeps(b, w1, multiset{i});
    if closed {
      RejectKeeps(b, w1, i);
    } else if b.Confluent? {
      SendConfluentKeeps(b, w1, i, serialisable, e);
    } else if e.first.Enqueued? && serialisable {
      EnqueueKeeps(b, w1.Call(), i);
    } else {
      FailInSendKeeps(b, w1.Call(), i, e);
    }
  }

  lemma RejectKeeps(b: Backend, w: World, i: nat)
    requires Inv(b, w, multiset{i})
    ensures Inv(b, w.(m := w.m.Reject(i)), multiset{})
  {
    var m' := w.m.Reject(i);
    assert forall k: nat :: Fates(m', k) == Fates(w.m, k) + multiset{i}[k];
  }

  lemma RowFallsBack(b: Backend, w: World, write: bool)
    requires Inv(b, w, multiset{})
    ensures Inv(b, NewRow(w).Fallback(BadRow(w.d.rows), write), multiset{})
  {
    FallbackCounts(NewRow(w).d, BadRow(w.d.rows), write);
    assert forall p :: Dispositions(NewRow(w).d, p) == Dispositions(w.d, p);
  }

  lemma RowEnqueued(b: Backend, w: World)
    requires Inv(b, w, multiset{})
    ensures Inv(b, NewRow(w).(d := NewRow(w).d.Enqueue(BadRow(w.d.rows))), multiset{})
  {
    EnqueueCounts(NewRow(w).d, BadRow(w.d.rows));
    assert forall p :: Dispositions(NewRow(w).d, p) == Dispositions(w.d, p);
  }

  lemma BadRowKeeps(b: Backend, w: World, closed: bool, fromDlq: bool, accepted: bool, write: bool, polled: seq<Report>)
    requires Inv(b, w, multiset{})
    ensures Inv(b, BadRowStep(b, w, closed, fromDlq, accepted, write, polled), multiset{})
  {
    hide Inv, Serve, DeadLetters.Fallback, DeadLetters.Enqueue;
    RowFallsBack(b, w, write);
    CallKeeps(b, w, multiset{});
    RowFallsBack(b, w.Call(), write);
    RowEnqueued(b, w.Call());
    if !fromDlq && !closed && b.Confluent? && accepted {
      var w2 := OfferDlq(NewRow(w), BadRow(w.d.rows), accepted, write);
      CallKeeps(b, w2, multiset{});
      ServeKeeps(b, w2.Call(), polled, multiset{});
    }
  }

  lemma StepKeeps(b: Backend, s: State, e: Event)
    requires Inv(b, s.w, multiset{})
    ensures Inv(b, Step(b, s, e).w, multiset{})
  {
    match e
    case Send(toDlq, serialisable, env) => SendKeeps(b, s.w, s.closed, toDlq, serialisable, env);
    case SendBadRow(fromDlq, accepted, write, polled) =>
      BadRowKeeps(b, s.w, s.closed, fromDlq, accepted, write, polled);
    case Callbacks(reports) => ServeKeeps(b, s.w, reports, multiset{});
    case Flush(served) => ServeKeeps(b, s.w, served, multiset{});
    case Close(served) => ServeKeeps(b, s.w, served, multiset{});
  }

  lemma {:induction false} RunKeeps(b: Backend, events: seq<Event>)
    ensures Inv(b, Run(b, events).w, multiset{})
  {
    if events != [] {
      RunKeeps(b, events[..|events| - 1]);
      StepKeeps(b, Run(b, events[..|events| - 1]), events[|events| - 1]);
    }
  }

  // ------------------------------------------------------------------ what a run guarantees

  /** Messages the client has taken, reported or not. */
  function TakenOnes(m: Messages): multiset<nat> {
    m.waiting + m.acked + m.nacked
  }

  /** The same messages were rejected, refused, taken and so on. */
  predicate SameFates(m: Messages, m': Messages) {
    && m'.sends == m.sends && m'.toDlq == m.toDlq
    && m'.rejected == m.rejected && m'.escaped == m.escaped && m'.refused == m.refused
    && TakenOnes(m') == TakenOnes(m)
  }

  /** Reports only move messages between waiting, acknowledged and refused by the broker. */
  lemma {:induction false} ServeKeepsFates(b: Backend, w: World, reports: seq<Report>)
    ensures SameFates(w.m, Serve(b, w, reports).m)
  {
    if reports != [] {
      ServeKeepsFates(b, w, reports[..|reports| - 1]);
      DeliverKeepsFates(b, Serve(b, w, reports[..|reports| - 1]), reports[|reports| - 1]);
    }
  }

  lemma DeliverKeepsFates(b: Backend, w: World, r: Report)
    ensures SameFates(w.m, Deliver(b, w, r).m)
  {
    if r.MainReport? && r.id in w.m.waiting {
      AckKeepsTaken(w.m, r.id);
      HandlingKeepsMessages(b, w.(m := w.m.Nack(r.id)), r.id, r.handling);
    }
  }

  lemma AckKeepsTaken(m: Messages, i: nat)
    requires i in m.waiting
    ensures SameFates(m, m.Ack(i)) && SameFates(m, m.Nack(i))
  {
  }

  lemma HandlingKeepsMessages(b: Backend, w: World, i: nat, h: Handling)
    ensures HandleInReport(b, w, i, h).m == w.m
  {
  }

  lemma FailInSendFates(b: Backend, w: World, i: nat, e: SendEnv)
    ensures SameFates(w.m.Refuse(i), FailInSend(b, w, i, e).m)
  {
    hide Serve, SameFates;
    var w1 := w.(m := w.m.Refuse(i));
    var w2 := OfferDlq(w1, Message(i), e.handling.accepted, e.handling.write).Call();
    ServeKeepsFates(b, w2, e.afterDlq);
    ServeKeepsFates(b, w1, []);
    NothingServed(b, w1);
  }

  lemma {:induction false} NothingServed(b: Backend, w: World)
    ensures Serve(b, w, []) == w
  {
  }

  /** The produce calls that let the client take the message. */
  predicate ClientTakes(b: Backend, e: SendEnv) {
    e.first.Enqueued? || (b.Confluent? && e.first.BufferFull? && e.second.Enqueued?)
  }

  lemma SameFatesAfter(m: Messages, m': Messages, i: nat)
    requires SameFates(m, m')
    ensures SameFates(m.Enqueue(i), m'.Enqueue(i)) && SameFates(m.Refuse(i), m'.Refuse(i))
  {
    assert TakenOnes(m.Enqueue(i)) == TakenOnes(m) + multiset{i};
    assert TakenOnes(m'.Enqueue(i)) == TakenOnes(m') + multiset{i};
  }

  lemma ConfluentFates(b: Backend, w: World, i: nat, e: SendEnv)
    requires b.Confluent?
    ensures SameFates(if ClientTakes(b, e) then w.m.Enqueue(i) else w.m.Refuse(i),
                      SendConfluentStep(b, w, i, true, e).m)
  {
    hide Serve, FailInSend;
    match e.first
    case Enqueued =>
      ServeKeepsFates(b, w.Call().Enqueue(i).Call(), e.afterProduce);
    case Raised =>
      FailInSendFates(b, w.Call(), i, e);
    case BufferFull =>
      ServeKeepsFates(b, w.Call().Call(), e.atBufferFull);
      var w1 := Serve(b, w.Call().Call(), e.atBufferFull).Call();
      SameFatesAfter(w.m, w1.m, i);
      ServeKeepsFates(b, w1.Enqueue(i).Call(), e.afterProduce);
      FailInSendFates(b, w1, i, e);
  }

  /** What one call of send does to its message, whatever reports its polls serve: rejected exactly
      when the producer is closed, raising out of send exactly when a Confluent value does not
      serialise, taken exactly when a produce call succeeds (on Confluent also the second one, after a
      full buffer), refused otherwise. */
  lemma SendFate(b: Backend, w: World, closed: bool, toDlq: bool, serialisable: bool, e: SendEnv)
    requires Inv(b, w, multiset{})
    ensures var m, i := SendStep(b, w, closed, toDlq, serialisable, e).m, w.m.sends;
            && m.sends == i + 1 && (i in m.toDlq <==> toDlq)
            && (i in m.rejected <==> closed)
            && (i in m.escaped <==> !closed && b.Confluent? && !serialisable)
            && (i in TakenOnes(m) <==> !closed && serialisable && ClientTakes(b, e))
            && (i in m.refused <==>
                  !closed && !(b.Confluent? && !serialisable) && !(serialisable && ClientTakes(b, e)))
  {
    hide Serve, FailInSend, Disposed;
    var i := w.m.sends;
    var w1 := w.(m := w.m.Number(toDlq));
    assert Fates(w.m, i) == 0 && i !in w.m.toDlq;
    if !closed {
      if b.Confluent? && serialisable {
        ConfluentFates(b, w1, i, e);
      } else if b.KafkaPython? {
        FailInSendFates(b, w1.Call(), i, e);
      }
    }
  }

  lemma {:induction false} OneEach(all: multiset<nat>, n: nat)
    requires forall i: nat :: all[i] == if i < n then 1 else 0
    ensures |all| == n
  {
    if n > 0 {
      var rest := all - multiset{n - 1};
      OneEach(rest, n - 1);
      assert all == rest + multiset{n - 1};
    } else {
      assert all == multiset{};
    }
  }

  /** Every call of send is either rejected because the producer is closed or one of the attempts that
      the counters account for: successes, failures, pending deliveries, and escaped exceptions. */
  lemma {:induction false} SendsAccounted(b: Backend, events: seq<Event>)
    ensures var m := Run(b, events).w.m; m.sends == |m.rejected| + m.Attempts()
  {
    RunKeeps(b, events);
    var m := Run(b, events).w.m;
    var all := m.rejected + m.escaped + m.refused + m.waiting + m.acked + m.nacked;
    forall i: nat ensures all[i] == if i < m.sends then 1 else 0 {
      assert Fates(m, i) + multiset{}[i] == if i < m.sends then 1 else 0;
    }
    OneEach(all, m.sends);
  }

  /** Once nothing waits: a message that failed and was not addressed to the dead-letter topic has
      exactly one acknowledged dead-letter record, or one fallback line, or (only when a write of the
      file failed) neither; every other message, a message rejected because the producer is closed
      included, has none of the three. */
  lemma {:induction false} DispositionOfMessages(b: Backend, events: seq<Event>, i: nat)
    requires Run(b, events).w.Settled() && i < Run(b, events).w.m.sends
    ensures var w := Run(b, events).w;
            w.d.acked[Message(i)] + w.d.lines[Message(i)] + w.d.lost[Message(i)]
            == if i !in w.m.toDlq && (i in w.m.refused || i in w.m.nacked) then 1 else 0
    ensures var w := Run(b, events).w;
            w.m.rejected[i] + w.m.escaped[i] + w.m.refused[i] + w.m.acked[i] + w.m.nacked[i] == 1
  {
    RunKeeps(b, events);
    var w := Run(b, events).w;
    assert Fates(w.m, i) == 1;
    assert Dispositions(w.d, Message(i)) + w.d.blocked[i] == w.m.refused[i] + w.m.nacked[i];
  }

  /** Every bad row ends as one acknowledged record, one fallback line, or one failed write. */
  lemma {:induction false} DispositionOfBadRows(b: Backend, events: seq<Event>, j: nat)
    requires Run(b, events).w.Settled() && j < Run(b, events).w.d.rows
    ensures var d := Run(b, events).w.d;
            d.acked[BadRow(j)] + d.lines[BadRow(j)] + d.lost[BadRow(j)] == 1
  {
    RunKeeps(b, events);
    assert Dispositions(Run(b, events).w.d, BadRow(j)) == 1;
  }

  /** A run puts at most two records per accepted send and one per bad row on the broker;
      on Confluent at most one record per accepted send. */
  lemma {:induction false} BoundedAmplification(b: Backend, events: seq<Event>)
    ensures var w := Run(b, events).w;
            w.TotalEnqueued() <= (if b.Confluent? then 1 else 2) * w.m.Attempts() + w.d.rows
  {
    RunKeeps(b, events);
  }

  /** The reports that must stay silent: a message report on Confluent, and any dead-letter report,
      make no call on the client and put no record on the broker. */
  lemma ReportsStaySilent(b: Backend, w: World, r: Report)
    requires b.Confluent? || r.DlqReport?
    ensures Deliver(b, w, r).calls == w.calls
    ensures Deliver(b, w, r).TotalEnqueued() == w.TotalEnqueued()
  {
    match r
    case MainReport(i, ok, h) => MessageReportSilent(b, w, i, ok, h);
    case DlqReport(o, ok, write) => DlqReportSilent(b, w, o, ok, write);
  }

  lemma MessageReportSilent(b: Backend, w: World, i: nat, ok: bool, h: Handling)
    requires b.Confluent?
    ensures var w' := Deliver(b, w, MainReport(i, ok, h));
            w'.calls == w.calls && w'.TotalEnqueued() == w.TotalEnqueued()
  {
    hide Messages.Taken, DeadLetters.Taken;
    if i in w.m.waiting {
      ReportTaken(w.m, i);
      SameTaken(w.d, Deliver(b, w, MainReport(i, ok, h)).d);
    }
  }

  lemma DlqReportSilent(b: Backend, w: World, o: Origin, ok: bool, write: bool)
    ensures var w' := Deliver(b, w, DlqReport(o, ok, write));
            w'.calls == w.calls && w'.TotalEnqueued() == w.TotalEnqueued()
  {
    hide Messages.Taken, DeadLetters.Taken;
    if o in w.d.waiting {
      DlqReportTaken(w.d, o);
      SameTaken(w.d.Nack(o), w.d.Nack(o).Fallback(o, write));
    }
  }

  lemma ReportTaken(m: Messages, i: nat)
    requires i in m.waiting
    ensures m.Ack(i).Taken() == m.Nack(i).Taken() == m.Taken()
  {
    MoveKeepsTotal(m.waiting, m.acked, i);
    MoveKeepsTotal(m.waiting, m.nacked, i);
  }

  lemma DlqReportTaken(d: DeadLetters, o: Origin)
    requires o in d.waiting
    ensures d.Ack(o).Taken() == d.Nack(o).Taken() == d.Taken()
  {
    MoveKeepsTotal(d.waiting, d.acked, o);
    MoveKeepsTotal(d.waiting, d.nacked, o);
  }

  lemma SameTaken(d: DeadLetters, d': DeadLetters)
    requires d.waiting == d'.waiting && d.acked == d'.acked && d.nacked == d'.nacked
    ensures d.Taken() == d'.Taken()
  {
  }

  lemma MoveKeepsTotal<T>(a: multiset<T>, b: multiset<T>, x: T)
    requires x in a
    ensures |a - multiset{x}| + |b + multiset{x}| == |a| + |b|
  {
  }

  /** On kafka-python the factor two is reached: a nacked message whose dead-letter record is taken. */
  lemma AmplificationReached(handling: Handling, env: SendEnv)
    requires handling.accepted && env.first.Enqueued?
    ensures var w := Run(KafkaPython, [Send(false, true, env), Callbacks([MainReport(0, false, handling)])]).w;
            w.TotalEnqueued() == 2 && w.m.Attempts() == 1
  {
    var sent := [Send(false, true, env)];
    var report := MainReport(0, false, handling);
    var both := sent + [Callbacks([report])];
    assert sent[..0] == [] && both[..1] == sent && [report][..0] == [];
    var w := Run(KafkaPython, sent).w;
    assert Run(KafkaPython, []) == State(EMPTY_WORLD, false);
    assert w.m.waiting == multiset{0} && w.m.toDlq == {};
    assert Serve(KafkaPython, w, [report]) == Deliver(KafkaPython, w, report);
    assert Run(KafkaPython, both).w == Serve(KafkaPython, w, [report]);
    assert both == [Send(false, true, env), Callbacks([report])];
  }

  // ------------------------------------------------------------------ how a failure is counted

  /** Handled inside a Confluent callback, a failure is counted once exactly when the first write of the
      fallback file succeeds, and twice otherwise. */
  lemma CallbackCountsOnce(b: Backend, w: World, i: nat, h: Handling)
    requires b.Confluent? && i !in w.m.toDlq
    ensures HandleInReport(b, w, i, h).d.Failures() == w.d.Failures() + (if h.write then 1 else 2)
  {
    FallbackFailure(w.d, Message(i), h.write);
    FallbackFailure(w.d.(doubled := w.d.doubled + 1), Message(i), h.rewrite);
  }

  lemma FallbackFailure(d: DeadLetters, o: Origin, ok: bool)
    ensures d.Fallback(o, ok).Failures() == d.Failures() + 1
  {
  }

  // ------------------------------------------------------------------ what the reports of a run decide

  /** What reports and fallback writes leave behind. */
  datatype Record = Record(sent: multiset<nat>, failed: multiset<nat>, acked: multiset<Origin>,
                           nacked: multiset<Origin>, lines: multiset<Origin>, lost: multiset<Origin>, doubled: nat)

  function RecordOf(w: World): Record {
    Record(w.m.acked, w.m.nacked, w.d.acked, w.d.nacked, w.d.lines, w.d.lost, w.d.doubled)
  }

  /** A kind of report, given the world in which it is served. */
  type Kind = (World, Report) -> bool

  /** A moment at which the client runs callbacks: the world before them, and their reports. */
  datatype Served = Served(w: World, reports: seq<Report>)

  /** How many of the reports are of the kind. */
  function CountReports(b: Backend, w: World, reports: seq<Report>, p: Kind): nat {
    if reports == [] then 0
    else
      var before := reports[..|reports| - 1];
      CountReports(b, w, before, p) + if p(Serve(b, w, before), reports[|reports| - 1]) then 1 else 0
  }

  function CountMoments(b: Backend, moments: seq<Served>, p: Kind): nat {
    if moments == [] then 0
    else CountReports(b, moments[0].w, moments[0].reports, p) + CountMoments(b, moments[1..], p)
  }

  function ServedAfterOffer(b: Backend, w: World, o: Origin, accepted: bool, write: bool,
                            polled: seq<Report>): seq<Served> {
    if b.Confluent? && accepted then [Served(OfferDlq(w, o, accepted, write).Call(), polled)] else []
  }

  function ServedAfterFailure(b: Backend, w: World, i: nat, e: SendEnv): seq<Served> {
    if i in w.m.toDlq then []
    else ServedAfterOffer(b, w.(m := w.m.Refuse(i)), Message(i), e.handling.accepted, e.handling.write, e.afterDlq)
  }

  function ServedInConfluentSend(b: Backend, w: World, i: nat, e: SendEnv): seq<Served> {
    match e.first
    case Enqueued => [Served(w.Call().Enqueue(i).Call(), e.afterProduce)]
    case Raised => ServedAfterFailure(b, w.Call(), i, e)
    case BufferFull =>
      var w' := Serve(b, w.Call().Call(), e.atBufferFull).Call();
      [Served(w.Call().Call(), e.atBufferFull)]
      + if e.second.Enqueued? then [Served(w'.Enqueue(i).Call(), e.afterProduce)] else ServedAfterFailure(b, w', i, e)
  }

  /** The moments of one event at which callbacks run. */
  function ServedIn(b: Backend, s: State, e: Event): seq<Served> {
    match e
    case Send(toDlq, serialisable, env) =>
      if s.closed || b.KafkaPython? || !serialisable then []
      else ServedInConfluentSend(b, s.w.(m := s.w.m.Number(toDlq)), s.w.m.sends, env)
    case SendBadRow(fromDlq, accepted, write, polled) =>
      if fromDlq || s.closed then []
      else ServedAfterOffer(b, NewRow(s.w), BadRow(s.w.d.rows), accepted, write, polled)
    case Callbacks(reports) => if b.KafkaPython? then [Served(s.w, reports)] else []
    case Flush(served) => [Served(s.w, served)]
    case Close(served) => if s.closed then [] else [Served(s.w, served)]
  }

  /** A line that the call itself writes, outside every report, and whether that succeeds: of a message
      that the client refuses, not addressed to the dead-letter topic, whose record is not accepted
      either; or of a bad row that is not accepted or not offered. */
  function DirectWrite(b: Backend, s: State, e: Event): Option<(Origin, bool)> {
    match e
    case Send(toDlq, serialisable, env) =>
      if s.closed || (b.Confluent? && !serialisable) || (serialisable && ClientTakes(b, env))
         || toDlq || env.handling.accepted
      then None
      else Some((Message(s.w.m.sends), env.handling.write))
    case SendBadRow(fromDlq, accepted, write, _) =>
      if !fromDlq && !s.closed && accepted then None else Some((BadRow(s.w.d.rows), write))
    case _ => None
  }

  function Counted(write: Option<(Origin, bool)>, g: (Origin, bool) -> nat): nat {
    match write
    case None => 0
    case Some(x) => g(x.0, x.1)
  }

  /** How many reports of the kind the client serves during the run. */
  function RunReports(b: Backend, events: seq<Event>, p: Kind): nat {
    if events == [] then 0
    else
      var before := events[..|events| - 1];
      RunReports(b, before, p) + CountMoments(b, ServedIn(b, Run(b, before), events[|events| - 1]), p)
  }

  /** The lines that the calls of the run write themselves. */
  function RunWrites(b: Backend, events: seq<Event>, g: (Origin, bool) -> nat): nat {
    if events == [] then 0
    else
      var before := events[..|events| - 1];
      RunWrites(b, before, g) + Counted(DirectWrite(b, Run(b, before), events[|events| - 1]), g)
  }

  /** f grows by one with every report of the kind, by g with every fallback line outside of reports,
      and with nothing else. */
  ghost predicate Measures(b: Backend, f: Record -> int, p: Kind, g: (Origin, bool) -> nat) {
    && (forall w, r :: f(RecordOf(Deliver(b, w, r))) == f(RecordOf(w)) + if p(w, r) then 1 else 0)
    && (forall w: World, o, ok :: f(RecordOf(w.Fallback(o, ok))) == f(RecordOf(w)) + g(o, ok))
  }

  lemma {:induction false} ServeCounts(b: Backend, w: World, reports: seq<Report>, f: Record -> int, p: Kind,
                                       g: (Origin, bool) -> nat)
    requires Measures(b, f, p, g)
    ensures f(RecordOf(Serve(b, w, reports))) == f(RecordOf(w)) + CountReports(b, w, reports, p)
  {
    hide Deliver, RecordOf;
    if reports != [] {
      ServeCounts(b, w, reports[..|reports| - 1], f, p, g);
    }
  }

  lemma CountOne(b: Backend, m: Served, rest: seq<Served>, p: Kind)
    ensures CountMoments(b, [m] + rest, p) == CountReports(b, m.w, m.reports, p) + CountMoments(b, rest, p)
    ensures CountMoments(b, [m], p) == CountReports(b, m.w, m.reports, p)
    ensures CountMoments(b, [], p) == 0
  {
    hide CountReports;
    assert ([m] + rest)[1..] == rest && [m][1..] == [];
  }

  lemma OfferCounts(b: Backend, w: World, o: Origin, accepted: bool, write: bool, polled: seq<Report>,
                    f: Record -> int, p: Kind, g: (Origin, bool) -> nat)
    requires Measures(b, f, p, g)
    ensures f(RecordOf(OfferRow(b, w, o, accepted, write, polled)))
            == f(RecordOf(w)) + CountMoments(b, ServedAfterOffer(b, w, o, accepted, write, polled), p)
               + if accepted then 0 else g(o, write)
  {
    hide Serve, CountReports, Deliver;
    var w' := OfferDlq(w, o, accepted, write).Call();
    ServeCounts(b, w', polled, f, p, g);
    CountOne(b, Served(w', polled), [], p);
    assert f(RecordOf(w.Call().Fallback(o, write))) == f(RecordOf(w.Call())) + g(o, write);
  }

  lemma FailureCounts(b: Backend, w: World, i: nat, e: SendEnv, f: Record -> int, p: Kind, g: (Origin, bool) -> nat)
    requires Measures(b, f, p, g)
    ensures f(RecordOf(FailInSend(b, w, i, e)))
            == f(RecordOf(w)) + CountMoments(b, ServedAfterFailure(b, w, i, e), p)
               + if i in w.m.toDlq || e.handling.accepted then 0 else g(Message(i), e.handling.write)
  {
    hide OfferRow, ServedAfterOffer, Measures;
    OfferCounts(b, w.(m := w.m.Refuse(i)), Message(i), e.handling.accepted, e.handling.write, e.afterDlq, f, p, g);
  }

  lemma ConfluentSendCounts(b: Backend, w: World, i: nat, e: SendEnv, f: Record -> int, p: Kind,
                            g: (Origin, bool) -> nat)
    requires b.Confluent? && Measures(b, f, p, g)
    ensures f(RecordOf(SendConfluentStep(b, w, i, true, e)))
            == f(RecordOf(w)) + CountMoments(b, ServedInConfluentSend(b, w, i, e), p)
               + if ClientTakes(b, e) || i in w.m.toDlq || e.handling.accepted then 0
                 else g(Message(i), e.handling.write)
  {
    hide Serve, FailInSend, ServedAfterFailure, CountReports, CountMoments, Measures;
    match e.first
    case Enqueued =>
      ServeCounts(b, w.Call().Enqueue(i).Call(), e.afterProduce, f, p, g);
      CountOne(b, Served(w.Call().Enqueue(i).Call(), e.afterProduce), [], p);
    case Raised =>
      FailureCounts(b, w.Call(), i, e, f, p, g);
    case BufferFull =>
      ServeCounts(b, w.Call().Call(), e.atBufferFull, f, p, g);
      ServeKeepsFates(b, w.Call().Call(), e.atBufferFull);
      var w' := Serve(b, w.Call().Call(), e.atBufferFull).Call();
      ServeCounts(b, w'.Enqueue(i).Call(), e.afterProduce, f, p, g);
      FailureCounts(b, w', i, e, f, p, g);
      var rest := if e.second.Enqueued? then [Served(w'.Enqueue(i).Call(), e.afterProduce)]
                  else ServedAfterFailure(b, w', i, e);
      CountOne(b, Served(w.Call().Call(), e.atBufferFull), rest, p);
      CountOne(b, Served(w'.Enqueue(i).Call(), e.afterProduce), [], p);
  }

  lemma SendCounts(b: Backend, s: State, e: Event, f: Record -> int, p: Kind, g: (Origin, bool) -> nat)
    requires Measures(b, f, p, g) && e.Send? && s.w.m.sends !in s.w.m.toDlq
    ensures f(RecordOf(Step(b, s, e).w))
            == f(RecordOf(s.w)) + CountMoments(b, ServedIn(b, s, e), p) + Counted(DirectWrite(b, s, e), g)
  {
    hide Serve, FailInSend, ServedInConfluentSend, ServedAfterFailure, CountReports, CountMoments, Measures;
    var i, w1 := s.w.m.sends, s.w.(m := s.w.m.Number(e.toDlq));
    assert i in w1.m.toDlq <==> e.toDlq;
    CountOne(b, Served(w1, []), [], p);
    if !s.closed && b.Confluent? && e.serialisable {
      hide SendConfluentStep;
      ConfluentSendCounts(b, w1, i, e.env, f, p, g);
    } else if !s.closed && b.KafkaPython? {
      FailureCounts(b, w1.Call(), i, e.env, f, p, g);
      assert ServedAfterFailure(b, w1.Call(), i, e.env) == [] by {
        PythonServesNothing(b, w1.Call(), i, e.env);
      }
    }
  }

  lemma PythonServesNothing(b: Backend, w: World, i: nat, e: SendEnv)
    requires b.KafkaPython?
    ensures ServedAfterFailure(b, w, i, e) == []
  {
  }

  lemma StepCounts(b: Backend, s: State, e: Event, f: Record -> int, p: Kind, g: (Origin, bool) -> nat)
    requires Measures(b, f, p, g) && s.w.m.sends !in s.w.m.toDlq
    ensures f(RecordOf(Step(b, s, e).w))
            == f(RecordOf(s.w)) + CountMoments(b, ServedIn(b, s, e), p) + Counted(DirectWrite(b, s, e), g)
  {
    hide Serve, OfferRow, ServedAfterOffer, CountReports, CountMoments, SendStep, ServedInConfluentSend;
    CountOne(b, Served(s.w, []), [], p);
    match e
    case Send(_, _, _) => SendCounts(b, s, e, f, p, g);
    case SendBadRow(fromDlq, accepted, write, polled) =>
      OfferCounts(b, NewRow(s.w), BadRow(s.w.d.rows), accepted, write, polled, f, p, g);
    case Callbacks(reports) =>
      ServeCounts(b, s.w, reports, f, p, g);
      CountOne(b, Served(s.w, reports), [], p);
    case Flush(served) =>
      ServeCounts(b, s.w, served, f, p, g);
      CountOne(b, Served(s.w, served), [], p);
    case Close(served) =>
      ServeCounts(b, s.w, served, f, p, g);
      CountOne(b, Served(s.w, served), [], p);
  }

  /** What is measured is, after a run, the count of its reports and of its direct writes. */
  lemma {:induction false} RunCounts(b: Backend, events: seq<Event>, f: Record -> int, p: Kind,
                                     g: (Origin, bool) -> nat)
    requires Measures(b, f, p, g)
    ensures f(RecordOf(Run(b, events).w))
            == f(RecordOf(EMPTY_WORLD)) + RunReports(b, events, p) + RunWrites(b, events, g)
  {
    hide Measures, Step, ServedIn, DirectWrite, CountMoments, RecordOf;
    if events != [] {
      var before := events[..|events| - 1];
      RunCounts(b, before, f, p, g);
      RunKeeps(b, before);
      StepCounts(b, Run(b, before), events[|events| - 1], f, p, g);
    }
  }

  /** The report says of a record that waits whether the broker has taken it. */
  predicate SaysOfRecord(w: World, r: Report, o: Origin, ok: bool) {
    r.DlqReport? && r.origin == o && r.ok == ok && o in w.d.waiting
  }

  /** The same of a message. */
  predicate SaysOfMessage(w: World, r: Report, i: nat, ok: bool) {
    r.MainReport? && r.id == i && r.ok == ok && i in w.m.waiting
  }

  /** The report makes the wrapper write a line for the origin, with this success in the end: the broker
      has refused its record; or the message itself, not addressed to the dead-letter topic, which on
      Confluent goes to the file at once and on kafka-python when its record is not accepted. */
  predicate MakesLine(b: Backend, w: World, r: Report, o: Origin, written: bool) {
    || (SaysOfRecord(w, r, o, false) && r.write == written)
    || (&& o.Message? && SaysOfMessage(w, r, o.id, false) && o.id !in w.m.toDlq
        && if b.Confluent? then (r.handling.write || r.handling.rewrite) == written
           else !r.handling.accepted && r.handling.write == written)
  }

  function RecordReport(o: Origin, ok: bool): Kind {
    (w, r) => SaysOfRecord(w, r, o, ok)
  }

  function MessageReport(i: nat, ok: bool): Kind {
    (w, r) => SaysOfMessage(w, r, i, ok)
  }

  function LineReport(b: Backend, o: Origin, written: bool): Kind {
    (w, r) => MakesLine(b, w, r, o, written)
  }

  function NoWrites(): (Origin, bool) -> nat {
    (_, _) => 0
  }

  function WritesOf(o: Origin, written: bool): (Origin, bool) -> nat {
    (p, ok) => if p == o && ok == written then 1 else 0
  }

  /** After any run a message is acknowledged, or refused by the broker, exactly as often as a report
      served while it waited says so; and so is a dead-letter record. */
  lemma ReportsDecide(b: Backend, events: seq<Event>, i: nat, o: Origin)
    ensures var w := Run(b, events).w;
            && w.m.acked[i] == RunReports(b, events, MessageReport(i, true))
            && w.m.nacked[i] == RunReports(b, events, MessageReport(i, false))
            && w.d.acked[o] == RunReports(b, events, RecordReport(o, true))
            && w.d.nacked[o] == RunReports(b, events, RecordReport(o, false))
  {
    MeasuresMessages(b, i);
    MeasuresRecords(b, o);
    hide Measures, Run, RunReports;
    NothingWritten(b, events);
    RunCounts(b, events, (x: Record) => x.sent[i], MessageReport(i, true), NoWrites());
    RunCounts(b, events, (x: Record) => x.failed[i], MessageReport(i, false), NoWrites());
    RunCounts(b, events, (x: Record) => x.acked[o], RecordReport(o, true), NoWrites());
    RunCounts(b, events, (x: Record) => x.nacked[o], RecordReport(o, false), NoWrites());
  }

  /** A message that waits is acknowledged or refused as its report says, and no other. */
  lemma MessageDelivered(b: Backend, w: World, r: Report, i: nat)
    ensures var w' := Deliver(b, w, r);
            && w'.m.acked[i] == w.m.acked[i] + (if SaysOfMessage(w, r, i, true) then 1 else 0)
            && w'.m.nacked[i] == w.m.nacked[i] + (if SaysOfMessage(w, r, i, false) then 1 else 0)
  {
    if r.MainReport? {
      HandlingKeepsMessages(b, w.(m := w.m.Nack(r.id)), r.id, r.handling);
    }
    hide HandleInReport;
  }

  /** The handling of a refused message in its report, as far as the dead-letter side is concerned. */
  lemma HandlingWrites(b: Backend, w: World, i: nat, h: Handling, o: Origin)
    ensures var w', mine := HandleInReport(b, w, i, h), o == Message(i) && i !in w.m.toDlq;
            var ok, writes := if b.Confluent? then h.write || h.rewrite else h.write, b.Confluent? || !h.accepted;
            && w'.d.acked == w.d.acked && w'.d.nacked == w.d.nacked
            && w'.d.lines[o] == w.d.lines[o] + (if mine && writes && ok then 1 else 0)
            && w'.d.lost[o] == w.d.lost[o] + (if mine && writes && !ok then 1 else 0)
            && w'.d.doubled == w.d.doubled + if b.Confluent? && i !in w.m.toDlq && !h.write then 1 else 0
  {
  }

  lemma RecordDelivered(b: Backend, w: World, r: Report, o: Origin)
    ensures var w' := Deliver(b, w, r);
            && w'.d.acked[o] == w.d.acked[o] + (if SaysOfRecord(w, r, o, true) then 1 else 0)
            && w'.d.nacked[o] == w.d.nacked[o] + (if SaysOfRecord(w, r, o, false) then 1 else 0)
            && w'.d.doubled == w.d.doubled + (if FirstWriteFails(b, w, r) then 1 else 0)
  {
    if r.MainReport? {
      HandlingWrites(b, w.(m := w.m.Nack(r.id)), r.id, r.handling, o);
    }
    hide HandleInReport;
  }

  lemma LineDelivered(b: Backend, w: World, r: Report, o: Origin)
    ensures Deliver(b, w, r).d.lines[o] == w.d.lines[o] + (if MakesLine(b, w, r, o, true) then 1 else 0)
    ensures Deliver(b, w, r).d.lost[o] == w.d.lost[o] + (if MakesLine(b, w, r, o, false) then 1 else 0)
  {
    hide HandleInReport, DeadLetters.Fallback;
    if r.MainReport? {
      var w1 := w.(m := w.m.Nack(r.id));
      HandlingWrites(b, w1, r.id, r.handling, o);
      assert w1.d == w.d && w1.m.toDlq == w.m.toDlq;
      assert o == Message(r.id) <==> o.Message? && o.id == r.id;
      assert !SaysOfRecord(w, r, o, false);
    } else {
      LineAdded(w.d.Nack(r.origin), r.origin, r.write, o);
      assert !(o.Message? && SaysOfMessage(w, r, o.id, false));
    }
  }

  lemma LineAdded(d: DeadLetters, p: Origin, ok: bool, o: Origin)
    ensures d.Fallback(p, ok).lines[o] == d.lines[o] + if ok && p == o then 1 else 0
    ensures d.Fallback(p, ok).lost[o] == d.lost[o] + if !ok && p == o then 1 else 0
  {
  }

  lemma MeasuresMessages(b: Backend, i: nat)
    ensures Measures(b, (x: Record) => x.sent[i], MessageReport(i, true), NoWrites())
    ensures Measures(b, (x: Record) => x.failed[i], MessageReport(i, false), NoWrites())
  {
    hide Deliver, SaysOfMessage;
    forall w, r
      ensures Deliver(b, w, r).m.acked[i] == w.m.acked[i] + (if SaysOfMessage(w, r, i, true) then 1 else 0)
      ensures Deliver(b, w, r).m.nacked[i] == w.m.nacked[i] + (if SaysOfMessage(w, r, i, false) then 1 else 0)
    {
      MessageDelivered(b, w, r, i);
    }
  }

  lemma MeasuresRecords(b: Backend, o: Origin)
    ensures Measures(b, (x: Record) => x.acked[o], RecordReport(o, true), NoWrites())
    ensures Measures(b, (x: Record) => x.nacked[o], RecordReport(o, false), NoWrites())
  {
    hide Deliver, SaysOfRecord;
    forall w, r
      ensures Deliver(b, w, r).d.acked[o] == w.d.acked[o] + (if SaysOfRecord(w, r, o, true) then 1 else 0)
      ensures Deliver(b, w, r).d.nacked[o] == w.d.nacked[o] + (if SaysOfRecord(w, r, o, false) then 1 else 0)
    {
      RecordDelivered(b, w, r, o);
    }
  }

  lemma {:induction false} NothingWritten(b: Backend, events: seq<Event>)
    ensures RunWrites(b, events, NoWrites()) == 0
  {
    if events != [] {
      NothingWritten(b, events[..|events| - 1]);
    }
  }

  /** After any run an origin has a fallback line, or a failed write, for every report that makes the
      wrapper write one, and for every call that does so itself. */
  lemma LinesDecide(b: Backend, events: seq<Event>, o: Origin)
    ensures var w := Run(b, events).w;
            && w.d.lines[o] == RunReports(b, events, LineReport(b, o, true)) + RunWrites(b, events, WritesOf(o, true))
            && w.d.lost[o] == RunReports(b, events, LineReport(b, o, false)) + RunWrites(b, events, WritesOf(o, false))
  {
    MeasuresLines(b, o);
    MeasuresLost(b, o);
    hide Measures, Run, RunReports, RunWrites;
    RunCounts(b, events, (x: Record) => x.lines[o], LineReport(b, o, true), WritesOf(o, true));
    RunCounts(b, events, (x: Record) => x.lost[o], LineReport(b, o, false), WritesOf(o, false));
  }

  lemma MeasuresLines(b: Backend, o: Origin)
    ensures Measures(b, (x: Record) => x.lines[o], LineReport(b, o, true), WritesOf(o, true))
  {
    hide Deliver, MakesLine;
    forall w, r ensures Deliver(b, w, r).d.lines[o] == w.d.lines[o] + (if MakesLine(b, w, r, o, true) then 1 else 0) {
      LineDelivered(b, w, r, o);
    }
  }

  lemma MeasuresLost(b: Backend, o: Origin)
    ensures Measures(b, (x: Record) => x.lost[o], LineReport(b, o, false), WritesOf(o, false))
  {
    hide Deliver, MakesLine;
    forall w, r ensures Deliver(b, w, r).d.lost[o] == w.d.lost[o] + (if MakesLine(b, w, r, o, false) then 1 else 0) {
      LineDelivered(b, w, r, o);
    }
  }

  // ------------------------------------------------------------------ dead-letter failures counted twice

  /** The report makes a Confluent callback write the fallback file, and that write fails. */
  predicate FirstWriteFails(b: Backend, w: World, r: Report) {
    && b.Confluent? && r.MainReport? && r.id in w.m.waiting && !r.ok
    && r.id !in w.m.toDlq && !r.handling.write
  }

  function FirstWriteFailing(b: Backend): Kind {
    (w: World, r: Report) => FirstWriteFails(b, w, r)
  }

  /** How often, in the whole run, a first write inside a Confluent callback failed. */
  function RunFailedFirstWrites(b: Backend, events: seq<Event>): nat {
    RunReports(b, events, FirstWriteFailing(b))
  }

  lemma RunDoubles(b: Backend, events: seq<Event>)
    ensures Run(b, events).w.d.doubled == RunFailedFirstWrites(b, events)
  {
    MeasuresDoubles(b);
    hide Measures, Run, RunReports;
    NothingWritten(b, events);
    RunCounts(b, events, (x: Record) => x.doubled, FirstWriteFailing(b), NoWrites());
  }

  lemma MeasuresDoubles(b: Backend)
    ensures Measures(b, (x: Record) => x.doubled, FirstWriteFailing(b), NoWrites())
  {
    hide Deliver, FirstWriteFails;
    forall w, r
      ensures Deliver(b, w, r).d.doubled == w.d.doubled + (if FirstWriteFails(b, w, r) then 1 else 0)
    {
      RecordDelivered(b, w, r, BadRow(0));
    }
  }

  /** No report of the moment is of the kind. */
  predicate NoneAt(b: Backend, m: Served, p: Kind) {
    forall k | 0 <= k < |m.reports| :: !p(Serve(b, m.w, m.reports[..k]), m.reports[k])
  }

  predicate NoneInStep(b: Backend, s: State, e: Event, p: Kind) {
    forall m | m in ServedIn(b, s, e) :: NoneAt(b, m, p)
  }

  /** No report that the client serves during the run is of the kind. */
  predicate NoneInRun(b: Backend, events: seq<Event>, p: Kind) {
    forall n | 0 <= n < |events| :: NoneInStep(b, Run(b, events[..n]), events[n], p)
  }

  lemma {:induction false} NoneReported(b: Backend, w: World, reports: seq<Report>, p: Kind)
    ensures CountReports(b, w, reports, p) == 0
            <==> forall k | 0 <= k < |reports| :: !p(Serve(b, w, reports[..k]), reports[k])
  {
    hide Serve;
    if reports != [] {
      var n := |reports| - 1;
      var before := reports[..n];
      NoneReported(b, w, before, p);
      assert forall k | 0 <= k < n :: before[..k] == reports[..k] && before[k] == reports[k];
    }
  }

  lemma {:induction false} NoneCounted(b: Backend, moments: seq<Served>, p: Kind)
    ensures CountMoments(b, moments, p) == 0 <==> forall m | m in moments :: NoneAt(b, m, p)
  {
    hide CountReports, Serve;
    if moments != [] {
      NoneCounted(b, moments[1..], p);
      NoneReported(b, moments[0].w, moments[0].reports, p);
      assert NoneAt(b, moments[0], p) <==> CountReports(b, moments[0].w, moments[0].reports, p) == 0;
      hide NoneAt;
      assert moments == [moments[0]] + moments[1..];
    }
  }

  lemma {:induction false} NoneOverRun(b: Backend, events: seq<Event>, p: Kind)
    ensures RunReports(b, events, p) == 0 <==> NoneInRun(b, events, p)
  {
    hide Run, ServedIn, CountMoments, NoneAt;
    if events != [] {
      var n := |events| - 1;
      var before := events[..n];
      NoneOverRun(b, before, p);
      NoneCounted(b, ServedIn(b, Run(b, before), events[n]), p);
      assert NoneInStep(b, Run(b, before), events[n], p)
             <==> CountMoments(b, ServedIn(b, Run(b, before), events[n]), p) == 0;
      hide NoneInStep;
      assert forall k | 0 <= k < n :: before[..k] == events[..k] && before[k] == events[k];
    }
  }

  /** After any run the dead-letter failure counter is the number of blocked messages, fallback lines and
      failed fallback writes, plus one for every first write that failed inside a Confluent callback; so
      it is that number exactly when no report served in the run has such a write. */
  lemma DlqFailuresCounted(k: KafkaProducerWrapper, events: seq<Event>)
    requires k.Valid() && k.world == Run(k.backend, events).w
    ensures var d := k.world.d;
            && k.dlqFailureCount == |d.blocked| + |d.lines| + |d.lost| + RunFailedFirstWrites(k.backend, events)
            && (k.dlqFailureCount == |d.blocked| + |d.lines| + |d.lost|
                <==> NoneInRun(k.backend, events, FirstWriteFailing(k.backend)))
  {
    hide Run, RunReports, NoneInRun;
    RunDoubles(k.backend, events);
    NoneOverRun(k.backend, events, FirstWriteFailing(k.backend));
  }

  /** A report on a dead-letter record adds to the failures exactly when the broker has refused it: one. */
  lemma RecordReportCounts(b: Backend, w: World, o: Origin, ok: bool, write: bool)
    requires o in w.d.waiting
    ensures Deliver(b, w, DlqReport(o, ok, write)).d.Failures() == w.d.Failures() + if ok then 0 else 1
  {
    FallbackFailure(w.d.Nack(o), o, write);
  }

  // ------------------------------------------------------------------ when attempts are conserved

  /** Event n sends a value that does not serialise to Confluent, and no close came before. */
  predicate RaisesOutOfSend(b: Backend, events: seq<Event>, n: nat)
    requires n < |events|
  {
    && b.Confluent? && events[n].Send? && !events[n].serialisable
    && forall j | 0 <= j < n :: !events[j].Close?
  }

  lemma {:induction false} ClosedByClose(b: Backend, events: seq<Event>)
    ensures Run(b, events).closed <==> exists n :: 0 <= n < |events| && events[n].Close?
  {
    hide Serve, SendStep, BadRowStep;
    if events != [] {
      var n := |events| - 1;
      var before := events[..n];
      ClosedByClose(b, before);
      assert forall k | 0 <= k < n :: before[k] == events[k];
    }
  }

  lemma StepEscapes(b: Backend, s: State, e: Event)
    ensures Step(b, s, e).w.m.escaped
            == s.w.m.escaped + if b.Confluent? && e.Send? && !e.serialisable && !s.closed then multiset{s.w.m.sends}
                               else multiset{}
  {
    hide Serve, FailInSend;
    match e
    case Send(toDlq, serialisable, env) => SendEscapes(b, s.w, s.closed, toDlq, serialisable, env);
    case SendBadRow(fromDlq, accepted, write, polled) =>
      ServeKeepsFates(b, OfferDlq(NewRow(s.w), BadRow(s.w.d.rows), accepted, write).Call(), polled);
    case Callbacks(reports) => ServeKeepsFates(b, s.w, reports);
    case Flush(served) => ServeKeepsFates(b, s.w, served);
    case Close(served) => ServeKeepsFates(b, s.w, served);
  }

  lemma SendEscapes(b: Backend, w: World, closed: bool, toDlq: bool, serialisable: bool, e: SendEnv)
    ensures SendStep(b, w, closed, toDlq, serialisable, e).m.escaped
            == w.m.escaped + if b.Confluent? && !serialisable && !closed then multiset{w.m.sends} else multiset{}
  {
    hide Serve, FailInSend;
    var i, w1 := w.m.sends, w.(m := w.m.Number(toDlq));
    if !closed {
      if b.Confluent? && serialisable {
        hide SendConfluentStep;
        ConfluentFates(b, w1, i, e);
      } else if b.KafkaPython? {
        FailInSendFates(b, w1.Call(), i, e);
      }
    }
  }

  lemma {:induction false} EscapedExactly(b: Backend, events: seq<Event>)
    ensures Run(b, events).w.m.escaped == multiset{}
            <==> forall n | 0 <= n < |events| :: !RaisesOutOfSend(b, events, n)
  {
    hide Step;
    if events != [] {
      var n := |events| - 1;
      var before := events[..n];
      EscapedExactly(b, before);
      assert forall k | 0 <= k < n :: before[k] == events[k];
      forall k | 0 <= k < n ensures RaisesOutOfSend(b, before, k) <==> RaisesOutOfSend(b, events, k) {
      }
      var s, e := Run(b, before), events[n];
      ClosedByClose(b, before);
      assert RaisesOutOfSend(b, events, n) <==> b.Confluent? && e.Send? && !e.serialisable && !s.closed;
      hide RaisesOutOfSend;
      StepEscapes(b, s, e);
      assert s.w.m.sends in multiset{s.w.m.sends};
    }
  }

  /** After any run the attempts are the successes, the counted failures of attempts and the pending
      messages, exactly when no send to Confluent before the first close had a value that does not
      serialise. */
  lemma RunConservation(k: KafkaProducerWrapper, events: seq<Event>)
    requires k.Valid() && k.world == Run(k.backend, events).w
    ensures k.sendAttemptCount == k.deliverySuccessCount + (k.deliveryFailureCount - |k.world.m.rejected|)
                                  + k.pendingDeliveries
            <==> forall n | 0 <= n < |events| :: !RaisesOutOfSend(k.backend, events, n)
  {
    hide Run, RaisesOutOfSend;
    EscapedExactly(k.backend, events);
    Conservation(k);
  }
}
