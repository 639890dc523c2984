/** Recognition results and the hand-off queue: which recognizer results become
    queued utterances (`handle_result`), and which queued utterances the consumer
    thread submits to the worker pool (`process_messages`). */
module Transcripts {
  import opened Topics

  /** Python's `str.isspace` for one character (the set `str.strip()` removes). */
  predicate IsSpace(c: char) {
    || '\t' <= c <= '\r'
    || '\U{1C}' <= c <= '\U{1F}'
    || c == ' ' || c == '\U{85}' || c == '\U{A0}' || c == '\U{1680}'
    || '\U{2000}' <= c <= '\U{200A}'
    || c == '\U{2028}' || c == '\U{2029}' || c == '\U{202F}' || c == '\U{205F}'
    || c == '\U{3000}'
  }

  /** Python's `s.lstrip()`: the suffix left after dropping leading whitespace. */
  function TrimStart(s: string): (r: string)
    ensures |r| <= |s| && r == s[|s| - |r|..]
    ensures r == [] || !IsSpace(r[0])
    ensures forall k | 0 <= k < |s| - |r| :: IsSpace(s[k])
    decreases |s|
  {
    if s != [] && IsSpace(s[0]) then TrimStart(s[1..]) else s
  }

  /** Python's `s.rstrip()`: the prefix left after dropping trailing whitespace. */
  function TrimEnd(s: string): (r: string)
    ensures |r| <= |s| && r == s[..|r|]
    ensures r == [] || !IsSpace(r[|r| - 1])
    ensures forall k | |r| <= k < |s| :: IsSpace(s[k])
    decreases |s|
  {
    if s != [] && IsSpace(s[|s| - 1]) then TrimEnd(s[..|s| - 1]) else s
  }

  /** Python's `s.strip()`. It is empty exactly when every character is whitespace,
      and otherwise starts and ends with a non-whitespace character of `s`. */
  function Strip(s: string): (r: string)
    ensures r == [] <==> forall k | 0 <= k < |s| :: IsSpace(s[k])
    ensures r != [] ==> !IsSpace(r[0]) && !IsSpace(r[|r| - 1])
    ensures |r| <= |s|
  {
    var t := TrimStart(s);
    var r := TrimEnd(t);
    assert r == s[|s| - |t|..|s| - |t| + |r|];
    r
  }

  /** The reasons the recognizer reports a result with; only the first one carries a
      final transcript. */
  datatype ResultReason = RecognizedSpeech | NoMatch | Canceled

  /** One result the recognizer hands to the `recognized` callback. */
  datatype RecognitionResult = RecognitionResult(reason: ResultReason, text: string)

  /** An item of the message queue: the client the recognizer belongs to, and the text. */
  datatype Utterance = Utterance(clientId: string, text: string)

  /** The filter of `handle_result`: final speech whose text is not blank. */
  predicate HasSpeech(result: RecognitionResult)
    ensures HasSpeech(result) <==>
            result.reason == RecognizedSpeech && exists k | 0 <= k < |result.text| :: !IsSpace(result.text[k])
  {
    result.reason == RecognizedSpeech && Strip(result.text) != []
  }

  /** What `handle_result` puts on the queue for one result: the unstripped text with
      the client identifier, or nothing. */
  function Enqueued(clientId: string, result: RecognitionResult): (items: seq<Utterance>)
    ensures |items| <= 1
    ensures items != [] <==> HasSpeech(result)
    ensures forall u | u in items :: u == Utterance(clientId, result.text) && u.text != []
  {
    if HasSpeech(result) then [Utterance(clientId, result.text)] else []
  }

  /** The guard of the consumer, `if client_id and text`: both strings are non-empty. */
  predicate ShouldDispatch(u: Utterance) {
    u.clientId != [] && u.text != []
  }

  /** The utterances the consumer submits when it drains `q`, in queue order. */
  function Dispatched(q: seq<Utterance>): (out: seq<Utterance>)
    ensures |out| <= |q|
    ensures forall i | 0 <= i < |out| :: ShouldDispatch(out[i])
    decreases |q|
  {
    if q == [] then []
    else (if ShouldDispatch(q[0]) then [q[0]] else []) + Dispatched(q[1..])
  }

  /** The consumer drops exactly the items failing the guard: every other item is
      submitted as many times as it was queued. */
  lemma {:induction false} DispatchedCount(q: seq<Utterance>, u: Utterance)
    ensures multiset(Dispatched(q))[u] == if ShouldDispatch(u) then multiset(q)[u] else 0
    decreases |q|
  {
    if q != [] {
      DispatchedCount(q[1..], u);
      assert q == [q[0]] + q[1..];
      assert multiset(q) == multiset([q[0]]) + multiset(q[1..]);
    }
  }

  /** Draining in two pieces submits what draining at once would, in the same order. */
  lemma {:induction false} DispatchedAppend(a: seq<Utterance>, b: seq<Utterance>)
    ensures Dispatched(a + b) == Dispatched(a) + Dispatched(b)
    decreases |a|
  {
    if a != [] {
      assert (a + b)[0] == a[0];
      assert (a + b)[1..] == a[1..] + b;
      DispatchedAppend(a[1..], b);
    } else {
      assert a + b == b;
    }
  }

  /** Draining one more item submits it after the others exactly when it passes the guard. */
  lemma DispatchedSnoc(q: seq<Utterance>, u: Utterance)
    ensures Dispatched(q + [u]) == Dispatched(q) + if ShouldDispatch(u) then [u] else []
  {
    DispatchedAppend(q, [u]);
    assert [u][1..] == [];
  }

  /** Everything the consumer submits carries a client identifier and a non-blank text
      only if the recognizer found speech: a blank or whitespace-only transcript never
      reaches the worker pool, and a recognized one does unless the identifier is empty. */
  lemma EnqueuedThenDispatched(clientId: string, result: RecognitionResult)
    ensures Dispatched(Enqueued(clientId, result)) ==
            if HasSpeech(result) && clientId != [] then [Utterance(clientId, result.text)] else []
  {
    var items := Enqueued(clientId, result);
    if items != [] {
      assert items[1..] == [];
    }
  }

  /** A topic whose last segment is empty (`voice/stream/` matches the subscription
      `voice/stream/+`) gets a session, but nothing recognized on it is ever submitted. */
  lemma EmptyClientIdNeverDispatched(result: RecognitionResult)
    ensures ClientIdOf(StreamTopic("")) == []
    ensures Dispatched(Enqueued(ClientIdOf(StreamTopic("")), result)) == []
  {
    StreamTopicRoundTrip("");
    EnqueuedThenDispatched([], result);
  }
}
