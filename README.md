# Voice gateway core: session registry, audio router, transcript hand-off, retry policy

This project models, in Dafny, the sequential core of `Server.py`, the voice chat gateway. Clients
stream microphone audio over MQTT on `voice/stream/<id>`. The gateway keeps one speech
recognition session per client, feeds each chunk into that client's push stream, and queues
every non-blank final transcript. A consumer thread submits queued transcripts to a worker
pool. Each worker asks a language model for a reply, retrying a bounded number of times, and
publishes synthesized audio on `voice/response/<id>`.

External services are abstracted:

- Speech SDK objects (push streams, recognizers) are opaque `Handle`s.
- Every SDK call that returns normally is appended to a trace of `SdkCall`s. The call that
  raises in a failing step is not recorded. A stream is closed once a `CloseStream` for it
  appears in that trace.
- Whether an SDK step or a language-model call succeeds is given as a parameter (an oracle).

Each MQTT or recognizer callback is one atomic step, as in the source, which relies on
callbacks arriving one at a time.

Files, one module each:

- `topics.dfy` (`Topics`): Python's `str.split`, the client identifier taken from a topic, and
  the stream and response topics.
- `transcripts.dfy` (`Transcripts`): Python's `str.isspace`/`str.strip`, the filter of
  `handle_result`, and the truthiness guard of the queue consumer.
- `retry.dfy` (`Retry`): `get_ai_response` as a loop over an oracle of call outcomes.
- `sessions.dfy` (`Sessions`): the registry transitions as functions on an abstract `State`,
  the registry invariant `Valid`, and the lemmas about both.
- `server.dfy` (`Server`): the class `VoiceChatbot`. Its methods update the session map, SDK
  trace, message queue and submitted work in place. The registry methods are proved to perform
  exactly the corresponding `Sessions` transition and to keep `Valid`. `HandleResult` and
  `ProcessMessages` are proved to append exactly `Transcripts.Enqueued` to the queue and
  `Transcripts.Dispatched` of the drained queue to the submitted work, and to leave the
  registry unchanged.

The registry invariant says four things:

- every registered session's stream is open;
- sessions share no SDK object: no two clients share a stream or a recognizer, and no stream
  is also a recognizer (every start creates both afresh, Server.py:134-140);
- all handles were allocated;
- the SDK trace never writes to or closes a stream after closing it.

Behaviours of `Server.py` that the model keeps as they are:

- `start_stream_recognition` is not idempotent. It overwrites an existing entry
  (Server.py:151). Only `on_message` guards it with a presence check (Server.py:181).
- A failed session start never closes the stream or recognizer it has already created
  (Server.py:159-161). The model's trace shows such handles opened and never closed
  (`Sessions.FailedStartLeaks`).
- The message queue is unbounded. No event is ever dropped for saturation.
- A topic with an empty last segment (`voice/stream/`) gets a session. Its transcripts are
  queued and then discarded by the consumer's `if client_id and text` guard.

## Model

| member | source | states |
|---|---|---|
| Topics.Split | Server.py:174 | Python `split`: at least one segment, and no segment contains the separator |
| Topics.JoinSplit | Server.py:174 | joining the segments of a split restores the topic |
| Topics.SplitJoin | Server.py:174 | splitting a join of separator-free segments restores the segments (the other direction of the round trip) |
| Topics.ClientIdOf | Server.py:174 | the client id has no `/`, is a suffix of the topic, and is either the whole topic or preceded by `/` |
| Topics.ClientIdOfUnique | Server.py:174 | any suffix with those three properties is the client id, so they characterise `split('/')[-1]` |
| Topics.ClientIdOfSegment | Server.py:174 | `prefix/id` with a slash-free id yields `id` (e.g. `voice/stream/c1` gives `c1`) |
| Topics.StreamTopic | Server.py:62 | the subscription `voice/stream/+`: audio of client `id` arrives on `voice/stream/<id>` |
| Topics.ResponseTopic | Server.py:106 | replies for client `id` are published on `voice/response/<id>` |
| Topics.StreamTopicRoundTrip | Server.py:62 | a slash-free id sent on `voice/stream/<id>` is parsed back to that id |
| Topics.ResponseTopicRoundTrip | Server.py:106 | the response topic built from a parsed id parses back to the same id, so the reply returns to the sender |
| Transcripts.IsSpace | Server.py:144 | the characters Python's `str.isspace` accepts, which `strip()` removes: ASCII `\t`..`\r`, the separators U+001C..U+001F, space, and the Unicode spaces and line/paragraph separators |
| Transcripts.TrimStart | Server.py:144 | `lstrip`: the result is a suffix of the input starting with a non-space character, and everything dropped is whitespace |
| Transcripts.TrimEnd | Server.py:144 | `rstrip`: the result is a prefix of the input ending with a non-space character, and everything dropped is whitespace |
| Transcripts.Strip | Server.py:144 | `strip()` is empty exactly when every character is whitespace; otherwise it starts and ends with non-whitespace |
| Transcripts.HasSpeech | Server.py:143-144 | a result is queued iff its reason is RecognizedSpeech and its text has a non-whitespace character |
| Transcripts.Enqueued | Server.py:142-146 | `handle_result` queues at most one item, exactly when the filter holds: the client id with the unstripped, non-empty text |
| Transcripts.ShouldDispatch | Server.py:69 | the consumer guard `if client_id and text`: both strings non-empty |
| Transcripts.Dispatched | Server.py:68-70 | the consumer submits at most as many items as were queued, and every submitted item has a non-empty id and text |
| Transcripts.DispatchedCount | Server.py:68-70 | the consumer drops exactly the items failing `if client_id and text`; every other item is submitted as many times as it was queued |
| Transcripts.DispatchedSnoc | Server.py:66-70 | taking one more item off the queue submits it after everything before it, exactly when it passes the guard |
| Transcripts.DispatchedAppend | Server.py:66-70 | draining a queue in two pieces submits the same items in the same FIFO order as draining it at once |
| Transcripts.EnqueuedThenDispatched | Server.py:143-146 | a recognition result reaches the worker pool iff it is non-blank recognized speech for a non-empty client id |
| Transcripts.EmptyClientIdNeverDispatched | Server.py:69 | on `voice/stream/` the client id is empty, and nothing recognized there is ever submitted |
| Retry.GetAiResponse | Server.py:193-216 | 1 to 3 calls (`MaxRetries`, Server.py:194); every call before the last one failed; returns the first successful reply, or after 3 failures the fixed apology `Fallback` (Server.py:213) without raising; sleeps exactly calls-1 times, never after the final attempt |
| Sessions.StartCalls | Server.py:134-149 | the three SDK steps of a session start (open the push stream, create the recognizer on it, start continuous recognition); none of them writes or closes |
| Sessions.TeardownCalls | Server.py:166-169 | the teardown stops the recognizer iff it is recognizing, writes nothing, and ends by closing the session's own stream |
| Sessions.StopStream | Server.py:163-170 | no-op on an absent id; otherwise removes exactly that key and leaves other entries unchanged, and appends exactly the teardown calls of that session to the SDK trace: its stream is closed, its recognizer stopped iff recognizing, nothing written |
| Sessions.StartStream | Server.py:131-161 | on success registers a session with two fresh handles that is recognizing; on failure leaves no entry for the id; other ids untouched; never writes |
| Sessions.Deliver | Server.py:184-191 | with a session, a successful write appends exactly one write of the chunk to that session's stream; a failing write is exactly the teardown of `stop_stream_recognition`; without a session the state, SDK trace included, is unchanged |
| Sessions.OnMessage | Server.py:172-191 | a message only changes the registry entry of the id parsed from its topic; the SDK trace only grows (for the trace, see `Sessions.OnMessageIsolated`) |
| Sessions.StopEach | Server.py:236-237 | tearing down a list of ids removes exactly those ids and leaves every other session as it was |
| Sessions.EndOfStreamTearsDown | Server.py:177-179 | the payload `b"END_OF_STREAM"` (the constant `EndOfStream`) removes the client's session and writes nothing; with no session the whole state is unchanged and no session is created |
| Sessions.ChunkForKnownClient | Server.py:181-187 | a chunk for a registered client goes into that session's stream and starts no second session |
| Sessions.ChunkStartsSession | Server.py:181-187 | a chunk for an unseen client first runs the three start steps, then writes into the new session's fresh stream; the result is exactly one entry for that id |
| Sessions.FailedStartWritesNothing | Server.py:159-161 | if the session cannot be started, no entry is registered and the chunk is not written |
| Sessions.FailedStartLeaks | Server.py:159-161 | a start that fails after opening the push stream leaves that stream opened, never closed and held by no client |
| Sessions.FailedWriteTearsDown | Server.py:181-191 | if writing raises, the client's session is removed and its stream is closed, both for a session that existed before the chunk and for one the same chunk started |
| Sessions.StopStreamValid | Server.py:163-170 | teardown keeps the registry invariant |
| Sessions.StartStreamValid | Server.py:151-155 | starting a session keeps the invariant, because the new stream is fresh and therefore open |
| Sessions.DeliverValid | Server.py:184-191 | the write step keeps the invariant, because it writes only into a registered, open stream |
| Sessions.StopStreamIsolated | Server.py:163-170 | tearing one client down makes no SDK call on another registered client's stream or recognizer |
| Sessions.StartStreamIsolated | Server.py:131-161 | starting a session (successful or not) makes no SDK call on another registered client's stream or recognizer |
| Sessions.DeliverIsolated | Server.py:184-191 | the write step, and the teardown after a failed write, make no SDK call on another registered client's stream or recognizer |
| Sessions.OnMessageIsolated | Server.py:172-191 | no SDK call caused by a message on `voice/stream/<id>` acts on the stream or recognizer of any other registered client |
| Sessions.OnMessageValid | Server.py:172-191 | every `on_message` keeps the invariant, so no chunk is written into a closed stream |
| Sessions.StopEachValid | Server.py:236-237 | the teardown loop keeps the invariant |
| Sessions.StopEachClosesAll | Server.py:236-237 | the teardown loop closes the stream of every session it tears down |
| Server.VoiceChatbot.constructor | Server.py:43-49 | a new gateway has no sessions, no SDK calls, an empty queue and no submitted work |
| Server.VoiceChatbot.StopStreamRecognition | Server.py:163-170 | performs exactly `StopStream`, keeps the invariant, and leaves the queue alone |
| Server.VoiceChatbot.StartStreamRecognition | Server.py:131-161 | performs exactly `StartStream` and keeps the invariant |
| Server.VoiceChatbot.OnMessage | Server.py:172-191 | performs exactly `Sessions.OnMessage` and keeps the invariant |
| Server.VoiceChatbot.Stop | Server.py:236-237 | the registry ends empty; every client registered at the start was torn down exactly once and had its stream closed |
| Server.VoiceChatbot.HandleResult | Server.py:142-146 | appends to the queue exactly what `Enqueued` says; the registry is untouched |
| Server.VoiceChatbot.ProcessMessages | Server.py:64-72 | drains the queue in FIFO order, appending exactly `Dispatched` of the old queue to the submitted work |

## Left out

- MQTT client setup, `on_connect`, subscribing, `connect`, `loop_forever` and `disconnect` (Server.py:38-40, 58-62, 218-228, 238) are network I/O. Only the topic names are modelled.
- The internals of the Azure recognizer and synthesizer and of the chat completion call are not modelled. They are foreign SDKs, seen only as opaque handles and succeed/fail parameters.
- `handle_recognition` and `async_text_to_speech` (Server.py:74-129) are left out. They are the worker pipeline after submission: thread pool, asyncio loop, synthesis and WAV packaging through the `wave` library. The model stops at the list of submitted tasks; of the publish step it keeps only the response topic.
- The `ThreadPoolExecutor`, the processing thread and the event loop are left out. Their point is concurrency, so queue hand-off and dispatch are modelled as sequential steps. So are `executor.shutdown`, `loop.stop` and `loop.close` in `stop`.
- Server.VoiceChatbot.ProcessMessages: assumes `executor.submit` succeeds. The submit raising after shutdown (caught and logged at Server.py:71-72) is not modelled.
- Server.VoiceChatbot.Stop: tears clients down in some order of the registered ids, not in the dict's insertion order that `list(self.client_sessions.keys())` gives. It also assumes that `executor.shutdown`, `loop.stop` and `loop.close` (Server.py:233-235) return normally. `loop.stop()` is called from the main thread while the loop runs in the thread started at Server.py:225, so `loop.close()` may raise because the loop is still running; the session teardown at Server.py:236-237 would then never run. The empty-registry result holds only when control reaches line 236.
- Sessions.StopStream: assumes `stop_continuous_recognition` and `close` succeed. Teardown in Server.py is not best-effort: if either raised, the source would skip the remaining steps, leave the stream open and the entry registered, and propagate the exception to its caller (Server.py:166-170). The model does not express a raising teardown.
- Sessions.Deliver: a `push_stream.write` that raises (Server.py:187) is not recorded in the SDK trace; only the teardown that follows is. Likewise `Sessions.StartStream` does not record the start step that raised (Server.py:134-149), only the steps before it.
- Retry.GetAiResponse: does not model a reply whose content is `None`. The 10-second timeout and the 1-second sleep are not modelled; only the number of sleeps is.
- Server.VoiceChatbot.HandleResult: takes the client id the callback closure captured as a parameter. The model does not restrict it to clients whose recognizer is running.
- `log` and its timestamp formatting, `time.sleep` durations, and loading credentials from the environment are I/O or clock, and are not modelled.
- There are no locks. The source has none and relies on callbacks arriving one at a time.
