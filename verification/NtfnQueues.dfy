/** Notification queues: the unbounded queue of the manager and the one-at-a-time sender of a client. */
module NtfnQueues {
  import opened ChainTypes

  // ---------------------------------------------------------------------------
  // The manager's queue
  // ---------------------------------------------------------------------------

  /**
   The state of `queueHandler` between two rounds of its select. A nil channel is one that
   cannot be chosen: `dequeueOpen` and `skipOpen` say whether the two send channels are set.
   */
  class QueueHandler<T> {
    var q: seq<T>
    var dequeueOpen: bool
    var skipOpen: bool
    var next: Option<T>
    ghost var received: seq<T>
    ghost var sent: seq<T>

    /** Nothing is lost, repeated or reordered, and the two ways out are never open together. */
    ghost predicate Valid()
      reads this
    {
      && received == sent + q
      && (dequeueOpen <==> q != []) && (skipOpen <==> q == [])
      && (q != [] ==> next == Some(q[0]))
    }

    constructor ()
      ensures Valid() && received == [] && sent == []
    {
      q, dequeueOpen, skipOpen, next := [], false, true, None;
      received, sent := [], [];
    }

    /** A message arrives; `ready` says whether the reader would take one right now. */
    method Receive(n: T, ready: bool)
      requires Valid()
      modifies this
      ensures Valid() && received == old(received) + [n]
      ensures if ready && old(q) == [] then sent == old(sent) + [n] && q == [] else sent == old(sent) && q == old(q) + [n]
    {
      received := received + [n];
      if skipOpen && ready {
        sent := sent + [n];
      } else {
        q := q + [n];
        dequeueOpen := true;
        skipOpen := false;
        next := Some(q[0]);
      }
    }

    /** The reader takes the oldest queued message. */
    method Dequeue() returns (n: T)
      requires Valid() && dequeueOpen
      modifies this
      ensures Valid() && received == old(received) && old(q) == [n] + q && sent == old(sent) + [n]
    {
      n := next.value;
      sent := sent + [n];
      q := q[1..];
      if q == [] {
        dequeueOpen := false;
        skipOpen := true;
      } else {
        next := Some(q[0]);
      }
    }
  }

  // ---------------------------------------------------------------------------
  // A client's sender
  // ---------------------------------------------------------------------------

  /** A message on its way to the socket; notifications report back when they are done. */
  datatype Response<T> = Response(msg: T, reportsBack: bool)

  function Notifications<T>(rs: seq<Response<T>>): (msgs: seq<T>) {
    if rs == [] then [] else (if rs[0].reportsBack then [rs[0].msg] else []) + Notifications(rs[1..])
  }

  lemma {:induction false} NotificationsAppend<T>(a: seq<Response<T>>, b: seq<Response<T>>)
    ensures Notifications(a + b) == Notifications(a) + Notifications(b)
  {
    if a == [] {
      assert a + b == b;
    } else {
      assert (a + b)[0] == a[0] && (a + b)[1..] == a[1..] + b;
      NotificationsAppend(a[1..], b);
      var head := if a[0].reportsBack then [a[0].msg] else [];
      Reassociate(head, Notifications(a[1..]), Notifications(b));
    }
  }

  lemma Reassociate<T>(a: seq<T>, b: seq<T>, c: seq<T>)
    ensures a + (b + c) == (a + b) + c
  {
  }

  /**
   A client: `notificationQueueHandler` with its pending list, `outHandler` with the message it is
   writing, the channel between them, and the one-slot channel on which completion is reported.
   */
  class Client<T> {
    var pending: seq<T>
    var waiting: bool
    var sendChan: seq<Response<T>>
    var writing: Option<Response<T>>
    var reports: nat
    var disconnected: bool
    ghost var received: seq<T>
    ghost var handedOver: seq<T>
    ghost var written: seq<Response<T>>

    /** What has been written or is on its way there, oldest first. */
    ghost function Sending(): (r: seq<Response<T>>)
      reads this
    {
      (if writing.Some? then [writing.value] else []) + sendChan
    }

    /**
     Messages are handed over in the order received; at most one notification is on its way or
     reported and not yet noticed, and none while the handler is not waiting; what was written is
     a beginning of what was handed over, and nothing is missing while the client is connected.
     */
    ghost predicate Valid()
      reads this
    {
      && received == handedOver + pending && (pending != [] ==> waiting)
      && |Notifications(Sending())| + reports <= (if waiting then 1 else 0)
      && Notifications(written) + Notifications(Sending()) <= handedOver
      && (!disconnected ==> Notifications(written) + Notifications(Sending()) == handedOver)
    }

    constructor ()
      ensures Valid() && received == []
    {
      pending, waiting, sendChan, writing, reports, disconnected := [], false, [], None, 0, false;
      received, handedOver, written := [], [], [];
    }

    /** `SendMessage` for a notification. */
    method Send(msg: T)
      requires |Notifications(Sending())| + reports == 0
      requires Notifications(written) + Notifications(Sending()) <= handedOver
      requires !disconnected ==> Notifications(written) + Notifications(Sending()) == handedOver
      modifies this`sendChan, this`reports, this`handedOver
      ensures handedOver == old(handedOver) + [msg] && |Notifications(Sending())| + reports == 1
      ensures Notifications(written) + Notifications(Sending()) <= handedOver
      ensures !disconnected ==> Notifications(written) + Notifications(Sending()) == handedOver
    {
      handedOver := handedOver + [msg];
      if disconnected {
        reports := reports + 1;
        return;
      }
      NotificationsAppend(Sending(), [Response(msg, true)]);
      assert Sending() + [Response(msg, true)] == (if writing.Some? then [writing.value] else []) + (sendChan + [Response(msg, true)]);
      assert [Response(msg, true)][1..] == [];
      sendChan := sendChan + [Response(msg, true)];
    }

    /** A notification arrives for the client. */
    method Receive(msg: T)
      requires Valid()
      modifies this
      ensures Valid() && received == old(received) + [msg]
    {
      received := received + [msg];
      if !waiting {
        Send(msg);
      } else {
        pending := pending + [msg];
      }
      waiting := true;
    }

    /** The handler notices that a notification is done, and sends the next one. */
    method NoticeReport()
      requires Valid() && reports > 0
      modifies this
      ensures Valid() && received == old(received)
    {
      reports := reports - 1;
      if pending == [] {
        waiting := false;
        return;
      }
      var msg := pending[0];
      pending := pending[1..];
      Send(msg);
    }

    /** A reply to a request goes through the same channel, without a report. */
    method Reply(msg: T)
      requires Valid()
      modifies this
      ensures Valid() && received == old(received)
    {
      if disconnected {
        return;
      }
      NotificationsAppend(Sending(), [Response(msg, false)]);
      assert Sending() + [Response(msg, false)] == (if writing.Some? then [writing.value] else []) + (sendChan + [Response(msg, false)]);
      assert [Response(msg, false)][1..] == [];
      sendChan := sendChan + [Response(msg, false)];
    }

    /** `outHandler` takes the next message. */
    method Take()
      requires Valid() && writing.None? && sendChan != []
      modifies this
      ensures Valid() && received == old(received) && Sending() == old(Sending())
    {
      assert [sendChan[0]] + sendChan[1..] == sendChan;
      assert old(Sending()) == sendChan;
      writing, sendChan := Some(sendChan[0]), sendChan[1..];
    }

    /** `outHandler` has written the message and reports it; the slot for the report is free. */
    method Wrote()
      requires Valid() && writing.Some?
      modifies this
      ensures Valid() && received == old(received) && written == old(written) + [old(writing.value)]
      ensures old(writing.value.reportsBack) ==> old(reports) == 0 && reports == 1
    {
      var r := writing.value;
      ghost var before := Sending();
      assert before == [r] + sendChan;
      NotificationsAppend([r], sendChan);
      NotificationsAppend(written, [r]);
      assert [r][1..] == [];
      written := written + [r];
      writing := None;
      if r.reportsBack {
        reports := reports + 1;
      }
      assert Sending() == sendChan;
    }

    /** Writing fails, or the client leaves: messages on their way are dropped, each with a report. */
    method Disconnect(failedWrite: bool)
      requires Valid() && (failedWrite ==> writing.Some?)
      modifies this
      ensures Valid() && received == old(received) && disconnected
    {
      hide Notifications;
      disconnected := true;
      if failedWrite {
        DropOne(written, writing.value, sendChan, handedOver);
        assert Sending() == [writing.value] + sendChan;
        writing := None;
        assert Sending() == sendChan;
        Drain();
      }
    }

    /** The end of `outHandler`: messages left in the channel are reported as not sent. */
    method Drain()
      requires Valid() && disconnected && writing.None?
      modifies this
      ensures Valid() && received == old(received) && disconnected && sendChan == []
    {
      hide Notifications;
      while sendChan != []
        invariant Valid() && received == old(received) && disconnected && writing.None?
        decreases |sendChan|
      {
        var r, rest := sendChan[0], sendChan[1..];
        assert sendChan == [r] + rest && Sending() == sendChan;
        DropOne(written, r, rest, handedOver);
        if r.reportsBack {
          reports := reports + 1;
        }
        sendChan := rest;
        assert Sending() == rest;
      }
    }
  }

  /** Dropping the oldest of messages among which there is at most one notification. */
  lemma DropOne<T>(written: seq<Response<T>>, r: Response<T>, rest: seq<Response<T>>, handedOver: seq<T>)
    requires |Notifications([r] + rest)| <= 1 && Notifications(written) + Notifications([r] + rest) <= handedOver
    ensures |Notifications(rest)| + (if r.reportsBack then 1 else 0) == |Notifications([r] + rest)|
    ensures Notifications(written) + Notifications(rest) <= handedOver
  {
    NotificationsAppend([r], rest);
    assert [r][1..] == [];
    assert !r.reportsBack ==> Notifications([r] + rest) == Notifications(rest);
    assert r.reportsBack ==> Notifications(rest) == [];
  }
}
