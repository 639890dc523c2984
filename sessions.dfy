/** The session registry and audio router, as transitions of an abstract state.
    The state is the registry itself (client identifier to session) together with the
    trace of every call into the speech SDK that returned normally; the call that
    raises in a failing step is not recorded. Stream and
    recognizer objects are opaque handles; a stream is closed once a `CloseStream`
    call for it appears in the trace. */
module Sessions {
  import opened Topics

  newtype byte = x: int | 0 <= x < 256

  /** The payload of one message on `voice/stream/<id>`. */
  type Chunk = seq<byte>

  /** The payload `b"END_OF_STREAM"` that ends a client's stream. */
  const EndOfStream: Chunk := [69, 78, 68, 95, 79, 70, 95, 83, 84, 82, 69, 65, 77]

  /** An SDK object (push stream or recognizer), known only by its identity. */
  datatype Handle = Handle(token: nat)

  /** One entry of `client_sessions`. */
  datatype Session = Session(pushStream: Handle, recognizer: Handle, isRecognizing: bool)

  /** The calls the gateway makes into the speech SDK. */
  datatype SdkCall =
    | OpenStream(stream: Handle)                         // PushAudioInputStream and its AudioConfig
    | CreateRecognizer(recognizer: Handle, stream: Handle) // SpeechRecognizer bound to the stream, callback connected
    | StartRecognition(recognizer: Handle)               // start_continuous_recognition
    | StopRecognition(recognizer: Handle)                // stop_continuous_recognition
    | WriteStream(stream: Handle, chunk: Chunk)          // push_stream.write
    | CloseStream(stream: Handle)                        // push_stream.close

  /** The registry, the SDK call trace, and the next unused handle identity. */
  datatype State = State(sessions: map<string, Session>, calls: seq<SdkCall>, nextToken: nat)

  /** The number of SDK steps `start_stream_recognition` performs before registering. */
  const StartSteps: nat := 3

  /** A call that writes to or closes the stream `h`. */
  predicate UsesStream(c: SdkCall, h: Handle) {
    (c.WriteStream? || c.CloseStream?) && c.stream == h
  }

  /** Whether the stream `h` has been closed. */
  predicate Closed(calls: seq<SdkCall>, h: Handle) {
    CloseStream(h) in calls
  }

  /** No stream is written to or closed again after it was closed. */
  ghost predicate NoUseAfterClose(calls: seq<SdkCall>) {
    forall i, j | 0 <= i < j < |calls| && calls[i].CloseStream? :: !UsesStream(calls[j], calls[i].stream)
  }

  /** Every handle the call mentions was allocated before `bound`. */
  predicate AllocatedBelow(c: SdkCall, bound: nat) {
    match c
    case OpenStream(s) => s.token < bound
    case CreateRecognizer(r, s) => r.token < bound && s.token < bound
    case StartRecognition(r) => r.token < bound
    case StopRecognition(r) => r.token < bound
    case WriteStream(s, _) => s.token < bound
    case CloseStream(s) => s.token < bound
  }

  /** Every session holds its own objects: no stream is also a recognizer, and no two
      clients share a stream or a recognizer. */
  predicate HandlesDistinct(m: map<string, Session>) {
    forall a, b | a in m && b in m ::
      && m[a].pushStream != m[b].recognizer
      && (a != b ==> m[a].pushStream != m[b].pushStream && m[a].recognizer != m[b].recognizer)
  }

  /** The registry invariant: every registered session has allocated handles and an
      open stream, sessions share no SDK object, and the trace never uses a stream
      after closing it. */
  ghost predicate Valid(st: State) {
    && (forall i | 0 <= i < |st.calls| :: AllocatedBelow(st.calls[i], st.nextToken))
    && (forall id | id in st.sessions ::
          && st.sessions[id].pushStream.token < st.nextToken
          && st.sessions[id].recognizer.token < st.nextToken
          && !Closed(st.calls, st.sessions[id].pushStream))
    && HandlesDistinct(st.sessions)
    && NoUseAfterClose(st.calls)
  }

  /** Whether the call `c` acts on, or binds, the SDK object `h`. */
  predicate Mentions(c: SdkCall, h: Handle) {
    match c
    case OpenStream(s) => s == h
    case CreateRecognizer(r, s) => r == h || s == h
    case StartRecognition(r) => r == h
    case StopRecognition(r) => r == h
    case WriteStream(s, _) => s == h
    case CloseStream(s) => s == h
  }

  /** No call of `calls` acts on the stream or the recognizer of `session`. */
  predicate Untouched(calls: seq<SdkCall>, session: Session) {
    forall c | c in calls :: !Mentions(c, session.pushStream) && !Mentions(c, session.recognizer)
  }

  /** The SDK calls of a successful `start_stream_recognition`, in order. */
  function StartCalls(stream: Handle, recognizer: Handle): (cs: seq<SdkCall>)
    ensures |cs| == StartSteps
    ensures forall c | c in cs :: !c.WriteStream? && !c.CloseStream?
  {
    [OpenStream(stream), CreateRecognizer(recognizer, stream), StartRecognition(recognizer)]
  }

  /** The SDK calls `stop_stream_recognition` makes for a registered session. */
  function TeardownCalls(session: Session): (cs: seq<SdkCall>)
    ensures StopRecognition(session.recognizer) in cs <==> session.isRecognizing
    ensures |cs| >= 1 && cs[|cs| - 1] == CloseStream(session.pushStream)
    ensures forall c | c in cs :: !c.WriteStream? && (c.CloseStream? ==> c.stream == session.pushStream)
    ensures forall c | c in cs :: c == StopRecognition(session.recognizer) || c == CloseStream(session.pushStream)
  {
    (if session.isRecognizing then [StopRecognition(session.recognizer)] else [])
      + [CloseStream(session.pushStream)]
  }

  /** `stop_stream_recognition`: a no-op for an unknown client; otherwise stops the
      recognizer when it is recognizing, closes the stream and removes exactly that
      entry. */
  function StopStream(st: State, clientId: string): (r: State)
    ensures clientId !in st.sessions ==> r == st
    ensures clientId in st.sessions ==> r.calls == st.calls + TeardownCalls(st.sessions[clientId])
    ensures clientId !in r.sessions
    ensures forall k | k != clientId :: (k in r.sessions <==> k in st.sessions)
    ensures forall k | k in r.sessions :: k in st.sessions && r.sessions[k] == st.sessions[k]
    ensures r.nextToken == st.nextToken && st.calls <= r.calls
    ensures forall c | c in r.calls[|st.calls|..] :: !c.WriteStream?
    ensures clientId in st.sessions ==>
              && Closed(r.calls, st.sessions[clientId].pushStream)
              && (StopRecognition(st.sessions[clientId].recognizer) in r.calls[|st.calls|..]
                  <==> st.sessions[clientId].isRecognizing)
  {
    if clientId !in st.sessions then st
    else
      var session := st.sessions[clientId];
      var cs := TeardownCalls(session);
      assert (st.calls + cs)[|st.calls|..] == cs;
      assert (st.calls + cs)[|st.calls + cs| - 1] == CloseStream(session.pushStream);
      st.(sessions := st.sessions - {clientId}, calls := st.calls + cs)
  }

  /** `start_stream_recognition`: allocates a stream and a recognizer and performs the
      SDK steps; `steps` of the three succeed. When all succeed the client is
      registered (replacing any entry it had); otherwise the exception is caught and
      the client is torn down. Handles made before the failing step are not closed. */
  function StartStream(st: State, clientId: string, steps: nat): (r: State)
    ensures r.nextToken == st.nextToken + 2 && st.calls <= r.calls
    ensures forall k | k != clientId :: (k in r.sessions <==> k in st.sessions)
    ensures forall k | k in r.sessions && k != clientId :: r.sessions[k] == st.sessions[k]
    ensures steps >= StartSteps ==>
              && clientId in r.sessions
              && r.sessions[clientId] == Session(Handle(st.nextToken), Handle(st.nextToken + 1), true)
    ensures steps < StartSteps ==> clientId !in r.sessions
    ensures forall c | c in r.calls[|st.calls|..] :: !c.WriteStream?
  {
    var stream, recognizer := Handle(st.nextToken), Handle(st.nextToken + 1);
    var made := StartCalls(stream, recognizer)[..if steps < StartSteps then steps else StartSteps];
    assert forall c | c in made :: !c.WriteStream?;
    var begun := st.(calls := st.calls + made, nextToken := st.nextToken + 2);
    assert begun.calls[|st.calls|..] == made;
    if steps >= StartSteps then
      begun.(sessions := st.sessions[clientId := Session(stream, recognizer, true)])
    else
      var r := StopStream(begun, clientId);
      QuietExtension(st.calls, begun.calls, r.calls);
      r
  }

  /** Two extensions of a trace that write nothing add up to one that writes nothing. */
  lemma QuietExtension(a: seq<SdkCall>, b: seq<SdkCall>, c: seq<SdkCall>)
    requires a <= b <= c
    requires forall x | x in b[|a|..] :: !x.WriteStream?
    requires forall x | x in c[|b|..] :: !x.WriteStream?
    ensures forall x | x in c[|a|..] :: !x.WriteStream?
  {
    assert c[|a|..] == b[|a|..] + c[|b|..];
  }

  /** The write step of `on_message` for a client: nothing without a session;
      otherwise the chunk is written, or, when the write raises, the session is torn
      down. */
  function Deliver(st: State, clientId: string, payload: Chunk, writeOk: bool): (r: State)
    ensures r.nextToken == st.nextToken && st.calls <= r.calls
    ensures forall k | k != clientId :: (k in r.sessions <==> k in st.sessions)
    ensures forall k | k in r.sessions :: k in st.sessions && r.sessions[k] == st.sessions[k]
    ensures clientId in r.sessions <==> clientId in st.sessions && writeOk
    ensures (exists c | c in r.calls[|st.calls|..] :: c.WriteStream?) <==> clientId in st.sessions && writeOk
    ensures clientId in st.sessions && writeOk ==>
              r.calls == st.calls + [WriteStream(st.sessions[clientId].pushStream, payload)]
    ensures clientId !in st.sessions ==> r == st
    ensures clientId in st.sessions && !writeOk ==> r == StopStream(st, clientId)
  {
    if clientId !in st.sessions then st
    else if writeOk then
      var r := st.(calls := st.calls + [WriteStream(st.sessions[clientId].pushStream, payload)]);
      assert r.calls[|st.calls|..] == [WriteStream(st.sessions[clientId].pushStream, payload)];
      assert r.calls[|st.calls|..][0].WriteStream?;
      r
    else StopStream(st, clientId)
  }

  /** `on_message` for a chunk on `topic`. The end-of-stream payload tears the client
      down and writes nothing; any other payload starts a session for an unknown client
      first, then is written into the client's stream; a failing write tears the
      session down. Sessions of other clients are untouched. */
  function OnMessage(st: State, topic: string, payload: Chunk, startSteps: nat, writeOk: bool): (r: State)
    ensures var id := ClientIdOf(topic);
            && (forall k | k != id :: (k in r.sessions <==> k in st.sessions))
            && (forall k | k in r.sessions && k != id :: r.sessions[k] == st.sessions[k])
            && st.calls <= r.calls
  {
    var clientId := ClientIdOf(topic);
    if payload == EndOfStream then StopStream(st, clientId)
    else
      var started := if clientId !in st.sessions then StartStream(st, clientId, startSteps) else st;
      Deliver(started, clientId, payload, writeOk)
  }

  /** The teardown loop of `stop`: `stop_stream_recognition` for each identifier in turn. */
  function StopEach(st: State, ids: seq<string>): (r: State)
    ensures forall k :: k in r.sessions <==> k in st.sessions && k !in ids
    ensures forall k | k in r.sessions :: k in st.sessions && r.sessions[k] == st.sessions[k]
    ensures r.nextToken == st.nextToken && st.calls <= r.calls
    decreases |ids|
  {
    if ids == [] then st else StopEach(StopStream(st, ids[0]), ids[1..])
  }

  // ---------------------------------------------------------------------------
  // Properties of the transitions
  // ---------------------------------------------------------------------------

  /** An end-of-stream chunk removes the client's session if there is one and writes
      nothing; for a client without a session it changes nothing at all. */
  lemma EndOfStreamTearsDown(st: State, topic: string, startSteps: nat, writeOk: bool)
    ensures var r := OnMessage(st, topic, EndOfStream, startSteps, writeOk);
            && ClientIdOf(topic) !in r.sessions
            && (forall c | c in r.calls[|st.calls|..] :: !c.WriteStream?)
            && (ClientIdOf(topic) !in st.sessions ==> r == st)
  {
  }

  /** A chunk for a client with a session is written into that session's stream; the
      session is neither replaced nor restarted. */
  lemma ChunkForKnownClient(st: State, topic: string, payload: Chunk, startSteps: nat)
    requires payload != EndOfStream && ClientIdOf(topic) in st.sessions
    ensures var id := ClientIdOf(topic);
            var r := OnMessage(st, topic, payload, startSteps, true);
            && r.sessions == st.sessions
            && r.calls == st.calls + [WriteStream(st.sessions[id].pushStream, payload)]
  {
  }

  /** A chunk for an unknown client starts a session before the write: when the start
      succeeds and the write succeeds, exactly one new session exists for the client
      and the chunk went into its fresh stream after the three start calls. */
  lemma ChunkStartsSession(st: State, topic: string, payload: Chunk, startSteps: nat)
    requires payload != EndOfStream && ClientIdOf(topic) !in st.sessions
    requires startSteps >= StartSteps
    ensures var id := ClientIdOf(topic);
            var r := OnMessage(st, topic, payload, startSteps, true);
            var stream := Handle(st.nextToken);
            && r.sessions == st.sessions[id := Session(stream, Handle(st.nextToken + 1), true)]
            && r.calls == st.calls + StartCalls(stream, Handle(st.nextToken + 1)) + [WriteStream(stream, payload)]
  {
    var id := ClientIdOf(topic);
    var started := StartStream(st, id, startSteps);
    assert StartCalls(Handle(st.nextToken), Handle(st.nextToken + 1))[..StartSteps]
        == StartCalls(Handle(st.nextToken), Handle(st.nextToken + 1));
  }

  /** When the session cannot be started, no entry is registered for the client and
      the chunk is not written. */
  lemma FailedStartWritesNothing(st: State, topic: string, payload: Chunk, startSteps: nat, writeOk: bool)
    requires payload != EndOfStream && ClientIdOf(topic) !in st.sessions
    requires startSteps < StartSteps
    ensures var r := OnMessage(st, topic, payload, startSteps, writeOk);
            && r.sessions == st.sessions
            && (forall c | c in r.calls[|st.calls|..] :: !c.WriteStream?)
  {
    var id := ClientIdOf(topic);
    var started := StartStream(st, id, startSteps);
    assert started.sessions == st.sessions;
  }

  /** A start that fails after opening the stream leaks it: the stream was opened, is
      never closed, and no client holds it any more. */
  lemma FailedStartLeaks(st: State, topic: string, payload: Chunk, startSteps: nat, writeOk: bool)
    requires Valid(st) && payload != EndOfStream && ClientIdOf(topic) !in st.sessions
    requires 1 <= startSteps < StartSteps
    ensures var r := OnMessage(st, topic, payload, startSteps, writeOk);
            var stream := Handle(st.nextToken);
            && OpenStream(stream) in r.calls
            && !Closed(r.calls, stream)
            && forall k | k in r.sessions :: r.sessions[k].pushStream != stream
  {
    var id := ClientIdOf(topic);
    var stream, recognizer := Handle(st.nextToken), Handle(st.nextToken + 1);
    var made := StartCalls(stream, recognizer)[..startSteps];
    assert made[0] == OpenStream(stream);
    assert forall c | c in made :: !c.CloseStream?;
    var begun := st.(calls := st.calls + made, nextToken := st.nextToken + 2);
    assert StopStream(begun, id) == begun;
    assert StartStream(st, id, startSteps) == begun;
    assert Deliver(begun, id, payload, writeOk) == begun;
    assert OnMessage(st, topic, payload, startSteps, writeOk) == begun;
    UnallocatedNotClosed(st.calls, st.nextToken, stream);
  }

  /** When writing the chunk raises, the client's session is gone afterwards and its
      stream is closed; all other sessions stay. */
  lemma FailedWriteTearsDown(st: State, topic: string, payload: Chunk, startSteps: nat)
    requires payload != EndOfStream
    ensures var id := ClientIdOf(topic);
            var r := OnMessage(st, topic, payload, startSteps, false);
            && id !in r.sessions
            && (id in st.sessions ==> Closed(r.calls, st.sessions[id].pushStream))
            && (id !in st.sessions && startSteps >= StartSteps ==> Closed(r.calls, Handle(st.nextToken)))
  {
  }

  /** Appending calls keeps the no-use-after-close property when every stream the new
      calls use is not closed before them. */
  lemma AppendNoUseAfterClose(calls: seq<SdkCall>, more: seq<SdkCall>)
    requires NoUseAfterClose(calls) && NoUseAfterClose(more)
    requires forall j, h | 0 <= j < |more| && UsesStream(more[j], h) :: !Closed(calls, h)
    ensures NoUseAfterClose(calls + more)
  {
    var all := calls + more;
    forall i, j | 0 <= i < j < |all| && all[i].CloseStream?
      ensures !UsesStream(all[j], all[i].stream)
    {
      var h := all[i].stream;
      if j < |calls| {
        assert all[i] == calls[i] && all[j] == calls[j];
      } else if i < |calls| {
        assert all[i] == calls[i];
        assert Closed(calls, h);
        assert all[j] == more[j - |calls|];
      } else {
        assert all[i] == more[i - |calls|] && all[j] == more[j - |calls|];
      }
    }
  }

  /** A handle allocated at or after `bound` is not closed in a trace of handles
      allocated below it. */
  lemma UnallocatedNotClosed(calls: seq<SdkCall>, bound: nat, h: Handle)
    requires forall i | 0 <= i < |calls| :: AllocatedBelow(calls[i], bound)
    requires h.token >= bound
    ensures !Closed(calls, h)
  {
  }

  /** Appending calls that allocate only below the new bound, close no registered
      stream and use only open streams keeps the invariant. */
  lemma AppendCallsValid(st: State, more: seq<SdkCall>, bound: nat)
    requires Valid(st) && st.nextToken <= bound
    requires forall i | 0 <= i < |more| :: AllocatedBelow(more[i], bound)
    requires NoUseAfterClose(more)
    requires forall j, h | 0 <= j < |more| && UsesStream(more[j], h) :: !Closed(st.calls, h)
    requires forall id | id in st.sessions :: CloseStream(st.sessions[id].pushStream) !in more
    ensures Valid(st.(calls := st.calls + more, nextToken := bound))
  {
    AppendNoUseAfterClose(st.calls, more);
    var r := st.(calls := st.calls + more, nextToken := bound);
    forall i | 0 <= i < |r.calls| ensures AllocatedBelow(r.calls[i], bound) {
      if i < |st.calls| {
        assert r.calls[i] == st.calls[i] && AllocatedBelow(st.calls[i], st.nextToken);
      } else {
        assert r.calls[i] == more[i - |st.calls|];
      }
    }
  }

  /** Registering a session with allocated handles and an open stream that no other
      client holds keeps the invariant. */
  lemma RegisterValid(st: State, clientId: string, session: Session)
    requires Valid(st)
    requires session.pushStream.token < st.nextToken && session.recognizer.token < st.nextToken
    requires !Closed(st.calls, session.pushStream)
    requires session.pushStream != session.recognizer
    requires forall id | id in st.sessions && id != clientId ::
               && st.sessions[id].pushStream != session.pushStream
               && st.sessions[id].recognizer != session.recognizer
               && st.sessions[id].pushStream != session.recognizer
               && st.sessions[id].recognizer != session.pushStream
    ensures Valid(st.(sessions := st.sessions[clientId := session]))
  {
  }

  /** `stop_stream_recognition` keeps the registry invariant. */
  lemma StopStreamValid(st: State, clientId: string)
    requires Valid(st)
    ensures Valid(StopStream(st, clientId))
  {
    if clientId in st.sessions {
      var session := st.sessions[clientId];
      var cs := TeardownCalls(session);
      var removed := st.(sessions := st.sessions - {clientId});
      assert Valid(removed);
      assert StopStream(st, clientId) == removed.(calls := st.calls + cs, nextToken := st.nextToken);
      TeardownCallsQuiet(removed, session);
      AppendCallsValid(removed, cs, st.nextToken);
    }
  }

  /** The teardown calls of a session that holds an open stream no remaining client
      holds may be appended to the trace. */
  lemma TeardownCallsQuiet(st: State, session: Session)
    requires session.pushStream.token < st.nextToken && session.recognizer.token < st.nextToken
    requires !Closed(st.calls, session.pushStream)
    requires forall id | id in st.sessions :: st.sessions[id].pushStream != session.pushStream
    ensures var cs := TeardownCalls(session);
            && (forall i | 0 <= i < |cs| :: AllocatedBelow(cs[i], st.nextToken))
            && NoUseAfterClose(cs)
            && (forall j, h | 0 <= j < |cs| && UsesStream(cs[j], h) :: !Closed(st.calls, h))
            && (forall id | id in st.sessions :: CloseStream(st.sessions[id].pushStream) !in cs)
  {
    var cs := TeardownCalls(session);
    assert forall i | 0 <= i < |cs| - 1 :: cs[i] == StopRecognition(session.recognizer);
  }

  /** `start_stream_recognition` keeps the registry invariant: the new handles were
      never used before, so the new session's stream is open. */
  lemma StartStreamValid(st: State, clientId: string, steps: nat)
    requires Valid(st)
    ensures Valid(StartStream(st, clientId, steps))
  {
    var stream, recognizer := Handle(st.nextToken), Handle(st.nextToken + 1);
    var made := StartCalls(stream, recognizer)[..if steps < StartSteps then steps else StartSteps];
    StartCallsQuiet(stream, recognizer, made, st.nextToken + 2);
    AppendCallsValid(st, made, st.nextToken + 2);
    var begun := st.(calls := st.calls + made, nextToken := st.nextToken + 2);
    if steps >= StartSteps {
      assert StartStream(st, clientId, steps) == begun.(sessions := st.sessions[clientId := Session(stream, recognizer, true)]);
      FreshStreamOpen(st, made, stream);
      RegisterValid(begun, clientId, Session(stream, recognizer, true));
    } else {
      assert StartStream(st, clientId, steps) == StopStream(begun, clientId);
      StopStreamValid(begun, clientId);
    }
  }

  /** The stream allocated by a start is open after the start calls. */
  lemma FreshStreamOpen(st: State, made: seq<SdkCall>, stream: Handle)
    requires Valid(st) && stream.token >= st.nextToken
    requires forall h :: CloseStream(h) !in made
    ensures !Closed(st.calls + made, stream)
  {
    UnallocatedNotClosed(st.calls, st.nextToken, stream);
  }

  /** The start calls neither write nor close, and mention only the two new handles. */
  lemma StartCallsQuiet(stream: Handle, recognizer: Handle, made: seq<SdkCall>, bound: nat)
    requires made <= StartCalls(stream, recognizer)
    requires stream.token < bound && recognizer.token < bound
    ensures forall i | 0 <= i < |made| :: AllocatedBelow(made[i], bound)
    ensures forall j, h | 0 <= j < |made| :: !UsesStream(made[j], h)
    ensures forall h :: CloseStream(h) !in made
    ensures NoUseAfterClose(made)
  {
    assert forall i | 0 <= i < |made| :: made[i] == StartCalls(stream, recognizer)[i];
  }

  /** The write step keeps the registry invariant: it writes only into a registered,
      hence open, stream. */
  lemma DeliverValid(st: State, clientId: string, payload: Chunk, writeOk: bool)
    requires Valid(st)
    ensures Valid(Deliver(st, clientId, payload, writeOk))
  {
    if clientId in st.sessions {
      if writeOk {
        var w := [WriteStream(st.sessions[clientId].pushStream, payload)];
        AppendCallsValid(st, w, st.nextToken);
      } else {
        StopStreamValid(st, clientId);
      }
    }
  }

  /** Every step of `on_message` keeps the registry invariant; in particular a chunk is
      only ever written into a stream that has not been closed. */
  lemma OnMessageValid(st: State, topic: string, payload: Chunk, startSteps: nat, writeOk: bool)
    requires Valid(st)
    ensures Valid(OnMessage(st, topic, payload, startSteps, writeOk))
  {
    var clientId := ClientIdOf(topic);
    if payload == EndOfStream {
      StopStreamValid(st, clientId);
    } else {
      var started := if clientId !in st.sessions then StartStream(st, clientId, startSteps) else st;
      if clientId !in st.sessions {
        StartStreamValid(st, clientId, startSteps);
      }
      DeliverValid(started, clientId, payload, writeOk);
    }
  }

  /** Two extensions of a trace that leave a session alone add up to one that does. */
  lemma UntouchedExtension(a: seq<SdkCall>, b: seq<SdkCall>, c: seq<SdkCall>, session: Session)
    requires a <= b <= c
    requires Untouched(b[|a|..], session) && Untouched(c[|b|..], session)
    ensures Untouched(c[|a|..], session)
  {
    assert c[|a|..] == b[|a|..] + c[|b|..];
  }

  /** Tearing one client down acts on no other client's stream or recognizer. */
  lemma StopStreamIsolated(st: State, clientId: string)
    requires HandlesDistinct(st.sessions)
    ensures var r := StopStream(st, clientId);
            forall k | k in st.sessions && k != clientId :: Untouched(r.calls[|st.calls|..], st.sessions[k])
  {
    if clientId in st.sessions {
      var r := StopStream(st, clientId);
      assert r.calls[|st.calls|..] == TeardownCalls(st.sessions[clientId]);
    }
  }

  /** The start calls act only on the two objects they create. */
  lemma StartCallsUntouched(stream: Handle, recognizer: Handle, made: seq<SdkCall>, session: Session)
    requires made <= StartCalls(stream, recognizer)
    requires session.pushStream != stream && session.pushStream != recognizer
    requires session.recognizer != stream && session.recognizer != recognizer
    ensures Untouched(made, session)
  {
    assert forall i | 0 <= i < |made| :: made[i] == StartCalls(stream, recognizer)[i];
  }

  /** Starting a session for one client acts on no other client's stream or recognizer:
      the start calls use fresh objects, and a failed start tears down only that client. */
  lemma StartStreamIsolated(st: State, clientId: string, steps: nat)
    requires Valid(st)
    ensures var r := StartStream(st, clientId, steps);
            forall k | k in st.sessions && k != clientId :: Untouched(r.calls[|st.calls|..], st.sessions[k])
  {
    var stream, recognizer := Handle(st.nextToken), Handle(st.nextToken + 1);
    var made := StartCalls(stream, recognizer)[..if steps < StartSteps then steps else StartSteps];
    var begun := st.(calls := st.calls + made, nextToken := st.nextToken + 2);
    var r := StartStream(st, clientId, steps);
    assert begun.calls[|st.calls|..] == made;
    forall k | k in st.sessions && k != clientId ensures Untouched(r.calls[|st.calls|..], st.sessions[k]) {
      StartCallsUntouched(stream, recognizer, made, st.sessions[k]);
      if steps < StartSteps {
        StartStreamFailureIsolated(st, clientId, steps, k);
      } else {
        assert r.calls[|st.calls|..] == made;
      }
    }
  }

  /** A failed start leaves every other client's objects alone after its start calls. */
  lemma StartStreamFailureIsolated(st: State, clientId: string, steps: nat, k: string)
    requires Valid(st) && steps < StartSteps
    requires k in st.sessions && k != clientId
    requires Untouched(StartCalls(Handle(st.nextToken), Handle(st.nextToken + 1))[..steps], st.sessions[k])
    ensures Untouched(StartStream(st, clientId, steps).calls[|st.calls|..], st.sessions[k])
  {
    var stream, recognizer := Handle(st.nextToken), Handle(st.nextToken + 1);
    var made := StartCalls(stream, recognizer)[..steps];
    var begun := st.(calls := st.calls + made, nextToken := st.nextToken + 2);
    assert begun.calls[|st.calls|..] == made;
    StopStreamIsolated(begun, clientId);
    var r := StopStream(begun, clientId);
    assert r == StartStream(st, clientId, steps);
    UntouchedExtension(st.calls, begun.calls, r.calls, st.sessions[k]);
  }

  /** The write step for one client acts on no other client's stream or recognizer. */
  lemma DeliverIsolated(st: State, clientId: string, payload: Chunk, writeOk: bool)
    requires Valid(st)
    ensures var r := Deliver(st, clientId, payload, writeOk);
            forall k | k in st.sessions && k != clientId :: Untouched(r.calls[|st.calls|..], st.sessions[k])
  {
    if clientId in st.sessions && !writeOk {
      StopStreamIsolated(st, clientId);
    }
  }

  /** A message on `voice/stream/<id>` acts on the stream and recognizer of client `id`
      only: no SDK call it causes touches another registered client's objects. */
  lemma OnMessageIsolated(st: State, topic: string, payload: Chunk, startSteps: nat, writeOk: bool)
    requires Valid(st)
    ensures var id := ClientIdOf(topic);
            var r := OnMessage(st, topic, payload, startSteps, writeOk);
            forall k | k in st.sessions && k != id :: Untouched(r.calls[|st.calls|..], st.sessions[k])
  {
    var id := ClientIdOf(topic);
    if payload == EndOfStream {
      StopStreamIsolated(st, id);
    } else {
      var started := if id !in st.sessions then StartStream(st, id, startSteps) else st;
      if id !in st.sessions {
        StartStreamValid(st, id, startSteps);
        StartStreamIsolated(st, id, startSteps);
      } else {
        assert started.calls[|st.calls|..] == [];
      }
      DeliverIsolated(started, id, payload, writeOk);
      var r := Deliver(started, id, payload, writeOk);
      forall k | k in st.sessions && k != id ensures Untouched(r.calls[|st.calls|..], st.sessions[k]) {
        assert started.sessions[k] == st.sessions[k];
        UntouchedExtension(st.calls, started.calls, r.calls, st.sessions[k]);
      }
    }
  }

  /** The teardown loop keeps the registry invariant. */
  lemma {:induction false} StopEachValid(st: State, ids: seq<string>)
    requires Valid(st)
    ensures Valid(StopEach(st, ids))
    decreases |ids|
  {
    if ids != [] {
      StopStreamValid(st, ids[0]);
      StopEachValid(StopStream(st, ids[0]), ids[1..]);
    }
  }

  /** Tearing down one more client after a prefix of the order. */
  lemma {:induction false} StopEachSnoc(st: State, ids: seq<string>, id: string)
    ensures StopEach(st, ids + [id]) == StopStream(StopEach(st, ids), id)
    decreases |ids|
  {
    if ids == [] {
      assert ids + [id] == [id];
    } else {
      assert (ids + [id])[0] == ids[0];
      assert (ids + [id])[1..] == ids[1..] + [id];
      StopEachSnoc(StopStream(st, ids[0]), ids[1..], id);
    }
  }

  /** One more round of the teardown loop: the next identifier is one that was
      registered, and exactly one entry goes away. */
  lemma StopEachStep(st: State, ids: seq<string>, id: string)
    requires id in StopEach(st, ids).sessions
    requires |ids| + |StopEach(st, ids).sessions| == |st.sessions|
    ensures StopEach(st, ids + [id]) == StopStream(StopEach(st, ids), id)
    ensures id in st.sessions
    ensures |ids + [id]| + |StopEach(st, ids + [id]).sessions| == |st.sessions|
  {
    StopEachSnoc(st, ids, id);
    var m := StopEach(st, ids).sessions;
    assert StopEach(st, ids + [id]).sessions == m - {id};
  }

  /** `stop` closes the stream of every session that was registered when it started. */
  lemma {:induction false} StopEachClosesAll(st: State, ids: seq<string>)
    ensures var r := StopEach(st, ids);
            forall k | k in st.sessions && k in ids :: Closed(r.calls, st.sessions[k].pushStream)
    decreases |ids|
  {
    if ids != [] {
      var next := StopStream(st, ids[0]);
      StopEachClosesAll(next, ids[1..]);
      var r := StopEach(st, ids);
      assert r == StopEach(next, ids[1..]);
      forall k | k in st.sessions && k in ids ensures Closed(r.calls, st.sessions[k].pushStream) {
        if k == ids[0] {
          assert Closed(next.calls, st.sessions[k].pushStream);
          assert next.calls <= r.calls;
          var i :| 0 <= i < |next.calls| && next.calls[i] == CloseStream(st.sessions[k].pushStream);
          assert r.calls[i] == next.calls[i];
        } else {
          assert k in ids[1..];
        }
      }
    }
  }
}
