/** The gateway object: its session dictionary, the SDK calls it has made, the message
    queue filled by recognizer callbacks, and the work it has submitted to the worker
    pool. Each callback runs as one atomic step; every registry step is proved to
    perform exactly the transition the `Sessions` module defines, and to keep its
    invariant. */
module Server {
  import opened Topics
  import opened Transcripts
  import opened Sessions

  class VoiceChatbot {
    /** `client_sessions`. */
    var sessions: map<string, Session>
    /** The calls made into the speech SDK so far. */
    var calls: seq<SdkCall>
    /** Identity of the next SDK object to be created. */
    var nextToken: nat
    /** `message_queue`, oldest first. */
    var messageQueue: seq<Utterance>
    /** The `handle_recognition` tasks handed to the worker pool, in submission order. */
    var submitted: seq<Utterance>

    /** The registry part of the object, as the `Sessions` module sees it. */
    function Registry(): State
      reads this
    {
      State(sessions, calls, nextToken)
    }

    ghost predicate Valid()
      reads this
    {
      Sessions.Valid(Registry())
    }

    /** A new gateway has no sessions, has made no SDK calls and has an empty queue. */
    constructor ()
      ensures Valid()
      ensures sessions == map[] && calls == [] && messageQueue == [] && submitted == []
    {
      sessions := map[];
      calls := [];
      nextToken := 0;
      messageQueue := [];
      submitted := [];
    }

    /** `stop_stream_recognition`. */
    method StopStreamRecognition(clientId: string)
      requires Valid()
      modifies this
      ensures Valid()
      ensures Registry() == StopStream(old(Registry()), clientId)
      ensures messageQueue == old(messageQueue) && submitted == old(submitted)
    {
      StopStreamValid(Registry(), clientId);
      ghost var expected := StopStream(Registry(), clientId);
      if clientId in sessions {
        var session := sessions[clientId];
        ghost var before := calls;
        if session.isRecognizing {
          calls := calls + [StopRecognition(session.recognizer)];
        }
        calls := calls + [CloseStream(session.pushStream)];
        assert calls == before + TeardownCalls(session);
        sessions := sessions - {clientId};
      }
      assert Registry() == expected;
    }

    /** `start_stream_recognition`; `steps` of its three SDK steps succeed. */
    method StartStreamRecognition(clientId: string, steps: nat)
      requires Valid()
      modifies this
      ensures Valid()
      ensures Registry() == StartStream(old(Registry()), clientId, steps)
      ensures messageQueue == old(messageQueue) && submitted == old(submitted)
    {
      ghost var before := Registry();
      ghost var expected := StartStream(before, clientId, steps);
      var pushStream, recognizer := Handle(nextToken), Handle(nextToken + 1);
      nextToken := nextToken + 2;
      var made := StartCalls(pushStream, recognizer);
      if steps >= StartSteps {
        assert made[..StartSteps] == made;
        calls := calls + made;
        sessions := sessions[clientId := Session(pushStream, recognizer, true)];
        assert Registry() == expected;
        StartStreamValid(before, clientId, steps);
      } else {
        StartCallsQuiet(pushStream, recognizer, made[..steps], nextToken);
        AppendCallsValid(before, made[..steps], nextToken);
        calls := calls + made[..steps];
        assert expected == StopStream(Registry(), clientId);
        StopStreamRecognition(clientId);
      }
    }

    /** `on_message` for a chunk with payload `payload` on `topic`; `startSteps` says how
        far a session start would get, `writeOk` whether the write succeeds. */
    method OnMessage(topic: string, payload: Chunk, startSteps: nat, writeOk: bool)
      requires Valid()
      modifies this
      ensures Valid()
      ensures Registry() == Sessions.OnMessage(old(Registry()), topic, payload, startSteps, writeOk)
      ensures messageQueue == old(messageQueue) && submitted == old(submitted)
    {
      ghost var st0 := Registry();
      var clientId := ClientIdOf(topic);
      if payload == EndOfStream {
        StopStreamRecognition(clientId);
        return;
      }
      if clientId !in sessions {
        StartStreamRecognition(clientId, startSteps);
      }
      ghost var started := Registry();
      ghost var expected := Deliver(started, clientId, payload, writeOk);
      assert expected == Sessions.OnMessage(st0, topic, payload, startSteps, writeOk);
      DeliverValid(started, clientId, payload, writeOk);
      if clientId in sessions {
        var session := sessions[clientId];
        if writeOk {
          calls := calls + [WriteStream(session.pushStream, payload)];
          assert Registry() == expected;
        } else {
          StopStreamRecognition(clientId);
        }
      }
    }

    /** The session loop of `stop`: tears down every client, in the order returned as
        `order`, which lists each registered client exactly once. */
    method Stop() returns (ghost order: seq<string>)
      requires Valid()
      modifies this
      ensures Valid()
      ensures sessions == map[]
      ensures Registry() == StopEach(old(Registry()), order)
      ensures forall k :: k in order <==> k in old(sessions)
      ensures |order| == |old(sessions)|
      ensures forall k | k in old(sessions) :: Closed(calls, old(sessions)[k].pushStream)
      ensures messageQueue == old(messageQueue) && submitted == old(submitted)
    {
      order := [];
      while sessions != map[]
        invariant Valid()
        invariant Registry() == StopEach(old(Registry()), order)
        invariant forall k | k in order :: k in old(sessions)
        invariant |order| + |sessions| == |old(sessions)|
        invariant messageQueue == old(messageQueue) && submitted == old(submitted)
        decreases |sessions|
      {
        var clientId :| clientId in sessions;
        StopEachStep(old(Registry()), order, clientId);
        StopStreamRecognition(clientId);
        order := order + [clientId];
      }
      StopEachClosesAll(old(Registry()), order);
    }

    /** `handle_result`, the recognizer callback of the session of `clientId`. */
    method HandleResult(clientId: string, result: RecognitionResult)
      modifies this
      ensures messageQueue == old(messageQueue) + Enqueued(clientId, result)
      ensures Registry() == old(Registry()) && submitted == old(submitted)
    {
      if result.reason == RecognizedSpeech {
        if Strip(result.text) != [] {
          messageQueue := messageQueue + [Utterance(clientId, result.text)];
        }
      }
    }

    /** The consumer loop of `process_messages`, run until the queue is empty (where the
        thread would block on `get`): each item is taken in FIFO order and submitted
        when both its identifier and its text are non-empty. */
    method ProcessMessages()
      modifies this
      ensures messageQueue == []
      ensures submitted == old(submitted) + Dispatched(old(messageQueue))
      ensures Registry() == old(Registry())
    {
      ghost var queued := messageQueue;
      ghost var taken := 0;
      while messageQueue != []
        invariant taken <= |queued| && messageQueue == queued[taken..]
        invariant submitted == old(submitted) + Dispatched(queued[..taken])
        invariant Registry() == old(Registry())
        decreases |messageQueue|
      {
        var item := messageQueue[0];
        messageQueue := messageQueue[1..];
        if item.clientId != [] && item.text != [] {
          submitted := submitted + [item];
        }
        assert queued[..taken + 1] == queued[..taken] + [item];
        DispatchedSnoc(queued[..taken], item);
        taken := taken + 1;
      }
      assert queued[..taken] == queued;
    }
  }
}
