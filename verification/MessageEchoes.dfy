/**
 * The expected echoes of sent messages: one queue per thread, from which a native user message
 * takes the first echo with its text. A send keeps hold of its echo and of the queue it joined,
 * also after the thread has been cleared and has a new queue.
 *
 * Texts stand for their whitespace-normalised form, which is all that the queue compares.
 */
module MessageEchoes {
  import opened Prelude

  datatype Echo = Echo(thread: Id, queue: nat, text: string, echoed: bool, publishes: bool)

  datatype Echoes = Echoes(queues: seq<seq<Id>>, queueOf: map<Id, nat>, records: map<Id, Echo>)

  const NO_ECHOES := Echoes([], map[], map[])

  function QueueFor(e: Echoes, thread: Id): seq<Id> {
    if thread in e.queueOf && e.queueOf[thread] < |e.queues| then e.queues[e.queueOf[thread]] else []
  }

  /** Message `message` waits for its echo at the end of the queue of its thread. */
  function Expect(e: Echoes, message: Id, thread: Id, text: string): Echoes {
    var q := if thread in e.queueOf then e.queueOf[thread] else |e.queues|;
    Echoes(
      if q < |e.queues| then e.queues[q := e.queues[q] + [message]] else e.queues + [[message]],
      e.queueOf[thread := q],
      e.records[message := Echo(thread, q, text, false, false)])
  }

  function IndexOf(queue: seq<Id>, message: Id): (i: nat)
    ensures i <= |queue|
    ensures i < |queue| ==> queue[i] == message
    ensures i == |queue| ==> message !in queue
  {
    if queue == [] || queue[0] == message then 0 else 1 + IndexOf(queue[1..], message)
  }

  /** The first waiting message with the text. */
  function FirstMatch(queue: seq<Id>, records: map<Id, Echo>, text: string): (i: nat)
    ensures i <= |queue|
    ensures i < |queue| ==> queue[i] in records && records[queue[i]].text == text
    ensures forall j | 0 <= j < i :: !(queue[j] in records && records[queue[j]].text == text)
  {
    if queue == [] || (queue[0] in records && records[queue[0]].text == text) then 0
    else 1 + FirstMatch(queue[1..], records, text)
  }

  /** Takes one entry out of a queue; the thread forgets a queue that becomes empty. */
  function TakenAt(e: Echoes, thread: Id, q: nat, i: nat): Echoes
    requires q < |e.queues| && i < |e.queues[q]|
  {
    var left := e.queues[q][..i] + e.queues[q][i + 1..];
    e.(queues := e.queues[q := left], queueOf := if left == [] then e.queueOf - {thread} else e.queueOf)
  }

  function Cancel(e: Echoes, message: Id): Echoes {
    if message !in e.records || e.records[message].queue >= |e.queues| then e
    else
      var echo := e.records[message];
      var i := IndexOf(e.queues[echo.queue], message);
      if i == |e.queues[echo.queue]| then e else TakenAt(e, echo.thread, echo.queue, i)
  }

  function PublishWhenEchoed(e: Echoes, message: Id): Echoes {
    if message in e.records then e.(records := e.records[message := e.records[message].(publishes := true)]) else e
  }

  predicate WasEchoed(e: Echoes, message: Id) {
    message in e.records && e.records[message].echoed
  }

  /** The message whose echo a native user message is, if one waits for it. */
  function Matching(e: Echoes, thread: Id, text: string): Option<Id> {
    var queue := QueueFor(e, thread);
    var i := FirstMatch(queue, e.records, text);
    if i < |queue| then Some(queue[i]) else None
  }

  function Consume(e: Echoes, thread: Id, text: string): Echoes {
    var queue := QueueFor(e, thread);
    var i := FirstMatch(queue, e.records, text);
    if i == |queue| then e
    else
      var echoed := e.records[queue[i] := e.records[queue[i]].(echoed := true)];
      TakenAt(e, thread, e.queueOf[thread], i).(records := echoed)
  }

  function Clear(e: Echoes, thread: Id): Echoes {
    e.(queueOf := e.queueOf - {thread})
  }

  ghost predicate QueuesAreKnown(e: Echoes) {
    && (forall t <- e.queueOf :: e.queueOf[t] < |e.queues|)
    && (forall t, u | t in e.queueOf && u in e.queueOf && t != u :: e.queueOf[t] != e.queueOf[u])
    && (forall m <- e.records :: e.records[m].queue < |e.queues|)
  }

  ghost predicate EntriesWait(e: Echoes) {
    && (forall q, i | 0 <= q < |e.queues| && 0 <= i < |e.queues[q]| ::
          var m := e.queues[q][i];
          m in e.records && e.records[m].queue == q && !e.records[m].echoed)
    && (forall q, i, j | 0 <= q < |e.queues| && 0 <= i < j < |e.queues[q]| :: e.queues[q][i] != e.queues[q][j])
  }

  ghost predicate QueuesFitTheirThreads(e: Echoes)
    requires QueuesAreKnown(e)
  {
    forall t <- e.queueOf :: forall m <- e.queues[e.queueOf[t]] :: m in e.records && e.records[m].thread == t
  }

  /** A message waits in one place of one queue, and only until it is echoed. */
  ghost predicate Waiting(e: Echoes) {
    QueuesAreKnown(e) && EntriesWait(e) && QueuesFitTheirThreads(e)
  }

  lemma ExpectRecords(e: Echoes, message: Id, thread: Id, text: string)
    ensures var after := Expect(e, message, thread, text);
            && message in after.records
            && after.records == e.records[message := Echo(thread, after.records[message].queue, text, false, false)]
  {
  }

  lemma ExpectKeepsWaiting(e: Echoes, message: Id, thread: Id, text: string)
    requires Waiting(e) && message !in e.records
    ensures Waiting(Expect(e, message, thread, text))
    ensures var after := Expect(e, message, thread, text);
            && message in after.records
            && after.records == e.records[message := Echo(thread, after.records[message].queue, text, false, false)]
  {
    ExpectRecords(e, message, thread, text);
    ExpectKeepsEntries(e, message, thread, text);
    hide EntriesWait;
    var after := Expect(e, message, thread, text);
    assert QueuesAreKnown(after);
    forall t <- after.queueOf, m <- after.queues[after.queueOf[t]]
      ensures m in after.records && after.records[m].thread == t
    {
      if t != thread || m != message {
        assert m in e.queues[e.queueOf[t]];
      }
    }
  }

  lemma ExpectKeepsEntries(e: Echoes, message: Id, thread: Id, text: string)
    requires QueuesAreKnown(e) && EntriesWait(e) && message !in e.records
    ensures EntriesWait(Expect(e, message, thread, text))
  {
  }

  lemma TakingKeepsWaiting(e: Echoes, thread: Id, q: nat, i: nat, records: map<Id, Echo>)
    requires Waiting(e) && q < |e.queues| && i < |e.queues[q]|
    requires records == e.records || records == e.records[e.queues[q][i] := e.records[e.queues[q][i]].(echoed := true)]
    ensures Waiting(TakenAt(e, thread, q, i).(records := records))
  {
    var after := TakenAt(e, thread, q, i).(records := records);
    var taken := e.queues[q][i];
    forall p, j | 0 <= p < |after.queues| && 0 <= j < |after.queues[p]|
      ensures var m := after.queues[p][j];
              m in after.records && after.records[m].queue == p && !after.records[m].echoed
    {
      var k := if p == q && j >= i then j + 1 else j;
      assert after.queues[p][j] == e.queues[p][k];
      assert after.queues[p][j] != taken;
    }
    forall p, j, k | 0 <= p < |after.queues| && 0 <= j < k < |after.queues[p]|
      ensures after.queues[p][j] != after.queues[p][k]
    {
      var j', k' := if p == q && j >= i then j + 1 else j, if p == q && k >= i then k + 1 else k;
      assert after.queues[p][j] == e.queues[p][j'] && after.queues[p][k] == e.queues[p][k'];
    }
    forall t <- after.queueOf, m <- after.queues[after.queueOf[t]]
      ensures m in after.records && after.records[m].thread == t
    {
      assert m in e.queues[e.queueOf[t]];
    }
  }

  lemma CancelKeepsWaiting(e: Echoes, message: Id)
    requires Waiting(e)
    ensures Waiting(Cancel(e, message)) && Cancel(e, message).records == e.records
  {
    if message in e.records {
      var echo := e.records[message];
      var i := IndexOf(e.queues[echo.queue], message);
      if i < |e.queues[echo.queue]| {
        TakingKeepsWaiting(e, echo.thread, echo.queue, i, e.records);
      }
    }
  }

  lemma ConsumeKeepsWaiting(e: Echoes, thread: Id, text: string)
    requires Waiting(e)
    ensures Waiting(Consume(e, thread, text))
    ensures var m := Matching(e, thread, text);
            && (m.Some? ==> m.value in e.records && !e.records[m.value].echoed
                            && e.records[m.value].thread == thread && e.records[m.value].text == text)
            && Consume(e, thread, text).records
               == if m.Some? then e.records[m.value := e.records[m.value].(echoed := true)] else e.records
  {
    var queue := QueueFor(e, thread);
    var i := FirstMatch(queue, e.records, text);
    if i < |queue| {
      var q := e.queueOf[thread];
      assert e.queues[q][i] == queue[i];
      TakingKeepsWaiting(e, thread, q, i, e.records[queue[i] := e.records[queue[i]].(echoed := true)]);
      assert queue[i] in e.queues[q];
    }
  }

  lemma PublishKeepsWaiting(e: Echoes, message: Id)
    requires Waiting(e)
    ensures Waiting(PublishWhenEchoed(e, message))
    ensures message in e.records ==>
              PublishWhenEchoed(e, message).records
              == e.records[message := e.records[message].(publishes := true)]
  {
  }

  /** Cancelling one echo makes its thread forget another message that waits. */
  ghost predicate CancelForgets(e: Echoes, message: Id, other: Id)
    requires message in e.records
  {
    var thread := e.records[message].thread;
    other != message && other in QueueFor(e, thread) && other !in QueueFor(Cancel(e, message), thread)
  }

  lemma CancelOfOnly(e: Echoes, message: Id)
    requires Waiting(e) && message in e.records && e.queues[e.records[message].queue] == [message]
    ensures var echo := e.records[message];
            (exists other :: CancelForgets(e, message, other))
            <==> Lookup(e.queueOf, echo.thread) != Some(echo.queue) && QueueFor(e, echo.thread) != []
  {
    var echo := e.records[message];
    assert QueueFor(Cancel(e, message), echo.thread) == [] by {
      assert IndexOf([message], message) == 0;
    }
    hide Cancel;
    if Lookup(e.queueOf, echo.thread) != Some(echo.queue) && QueueFor(e, echo.thread) != [] {
      var other := QueueFor(e, echo.thread)[0];
      assert e.queues[e.queueOf[echo.thread]][0] == other && e.queues[echo.queue][0] == message;
      assert CancelForgets(e, message, other);
    }
  }

  lemma TakingKeepsOthers(e: Echoes, thread: Id, q: nat, i: nat, other: Id)
    requires q < |e.queues| && i < |e.queues[q]| && |e.queues[q]| > 1 && other != e.queues[q][i]
    requires other in QueueFor(e, thread)
    ensures other in QueueFor(TakenAt(e, thread, q, i), thread)
  {
    var queue, left := e.queues[q], e.queues[q][..i] + e.queues[q][i + 1..];
    if e.queueOf[thread] == q {
      var k :| 0 <= k < |queue| && queue[k] == other;
      assert left[if k < i then k else k - 1] == other;
    }
  }

  lemma CancelOfOneAmongMany(e: Echoes, message: Id, other: Id)
    requires Waiting(e) && message in e.records && e.queues[e.records[message].queue] != [message]
    ensures !CancelForgets(e, message, other)
  {
    var echo := e.records[message];
    var queue := e.queues[echo.queue];
    var i := IndexOf(queue, message);
    hide Waiting, TakenAt, QueueFor;
    if i < |queue| && other != message && other in QueueFor(e, echo.thread) {
      assert |queue| > 1;
      TakingKeepsOthers(e, echo.thread, echo.queue, i, other);
    }
  }

  /**
   * Cancelling an echo makes its thread forget other waiting messages exactly when the thread was
   * cleared and has a new queue, and the echo was the last of the old one.
   */
  lemma CancelForgetsOthersIff(e: Echoes, message: Id)
    requires Waiting(e) && message in e.records
    ensures var echo := e.records[message];
            (exists other :: CancelForgets(e, message, other))
            <==> e.queues[echo.queue] == [message]
                 && Lookup(e.queueOf, echo.thread) != Some(echo.queue)
                 && QueueFor(e, echo.thread) != []
  {
    var echo := e.records[message];
    assert echo.queue < |e.queues|;
    hide Waiting, CancelForgets;
    if e.queues[echo.queue] == [message] {
      CancelOfOnly(e, message);
    } else {
      forall other ensures !CancelForgets(e, message, other) {
        CancelOfOneAmongMany(e, message, other);
      }
    }
  }

  /** Message 0 waits in thread 1 when the thread is cleared; then message 1 waits in its new queue. */
  const AFTER_CLEAR := Expect(Clear(Expect(NO_ECHOES, 0, 1, "a"), 1), 1, 1, "b")

  /** Cancelling the old message makes the thread forget the new one. */
  lemma CancelCanForgetNewQueue()
    ensures Waiting(AFTER_CLEAR) && !WasEchoed(AFTER_CLEAR, 0) && CancelForgets(AFTER_CLEAR, 0, 1)
    ensures Matching(AFTER_CLEAR, 1, "b") == Some(1) && Matching(Cancel(AFTER_CLEAR, 0), 1, "b").None?
  {
    assert AFTER_CLEAR.queues == [[0], [1]];
  }
}
