/** The expected echoes as the adapter keeps them: queues that are pushed to and spliced in place. */
module EchoBooks {
  import opened Prelude
  import opened MessageEchoes

  class EchoBook {
    var queues: seq<seq<Id>>
    var queueOf: map<Id, nat>
    var records: map<Id, Echo>

    ghost function Value(): Echoes
      reads this
    {
      Echoes(queues, queueOf, records)
    }

    constructor ()
      ensures Value() == NO_ECHOES && Waiting(Value())
    {
      queues, queueOf, records := [], map[], map[];
    }

    method ExpectUserMessageEcho(message: Id, thread: Id, text: string)
      requires Waiting(Value()) && message !in records
      modifies this
      ensures Value() == Expect(old(Value()), message, thread, text) && Waiting(Value())
    {
      ExpectKeepsWaiting(Value(), message, thread, text);
      var q := |queues|;
      if thread in queueOf {
        q := queueOf[thread];
        queues := queues[q := queues[q] + [message]];
      } else {
        queueOf := queueOf[thread := q];
        queues := queues + [[message]];
      }
      records := records[message := Echo(thread, q, text, false, false)];
    }

    method CancelEcho(message: Id)
      requires Waiting(Value()) && message in records
      modifies this
      ensures Value() == Cancel(old(Value()), message) && Waiting(Value())
    {
      CancelKeepsWaiting(Value(), message);
      var echo := records[message];
      var queue := queues[echo.queue];
      var i := FindMessage(queue, message);
      if i < |queue| {
        Splice(echo.thread, echo.queue, i);
      }
    }

    method PublishWhenEchoed(message: Id)
      requires Waiting(Value()) && message in records
      modifies this`records
      ensures Value() == MessageEchoes.PublishWhenEchoed(old(Value()), message) && Waiting(Value())
    {
      PublishKeepsWaiting(Value(), message);
      hide Waiting;
      records := records[message := records[message].(publishes := true)];
    }

    method ClearThread(thread: Id)
      requires Waiting(Value())
      modifies this`queueOf
      ensures Value() == Clear(old(Value()), thread) && Waiting(Value())
    {
      queueOf := queueOf - {thread};
    }

    method Splice(thread: Id, q: nat, i: nat)
      requires q < |queues| && i < |queues[q]|
      modifies this`queues, this`queueOf
      ensures Value() == TakenAt(old(Value()), thread, q, i)
    {
      queues := queues[q := queues[q][..i] + queues[q][i + 1..]];
      if queues[q] == [] {
        queueOf := queueOf - {thread};
      }
    }

    /** Takes the first waiting message with the text of a native user message. */
    method ConsumeSyntheticUserMessage(thread: Id, text: string) returns (message: Option<Id>)
      requires Waiting(Value())
      modifies this
      ensures Value() == Consume(old(Value()), thread, text) && Waiting(Value())
      ensures message == Matching(old(Value()), thread, text)
    {
      ConsumeKeepsWaiting(Value(), thread, text);
      hide Waiting;
      if thread !in queueOf {
        return None;
      }
      var q := queueOf[thread];
      var queue := queues[q];
      var i := FindText(queue, records, text);
      if i == |queue| {
        return None;
      }
      message := Some(queue[i]);
      records := records[queue[i] := records[queue[i]].(echoed := true)];
      Splice(thread, q, i);
    }
  }

  method FindMessage(queue: seq<Id>, message: Id) returns (i: nat)
    ensures i == IndexOf(queue, message)
  {
    i := 0;
    while i < |queue| && queue[i] != message
      invariant i <= |queue|
      invariant IndexOf(queue, message) == i + IndexOf(queue[i..], message)
    {
      assert queue[i..][1..] == queue[i + 1..];
      i := i + 1;
    }
  }

  method FindText(queue: seq<Id>, records: map<Id, Echo>, text: string) returns (i: nat)
    ensures i == FirstMatch(queue, records, text)
  {
    i := 0;
    while i < |queue| && !(queue[i] in records && records[queue[i]].text == text)
      invariant i <= |queue|
      invariant FirstMatch(queue, records, text) == i + FirstMatch(queue[i..], records, text)
    {
      assert queue[i..][1..] == queue[i + 1..];
      i := i + 1;
    }
  }
}
