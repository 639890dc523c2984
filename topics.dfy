/** Topic handling of the gateway: the client identifier is the last `/`-separated
    segment of the topic an audio chunk arrives on, and replies go back on a topic
    built from that identifier. Splitting follows Python's `str.split(sep)`. */
module Topics {

  /** Python's `s.split(sep)`: the maximal runs between separators, always at
      least one (possibly empty) segment. */
  function Split(s: string, sep: char): (parts: seq<string>)
    ensures |parts| >= 1
    ensures forall i | 0 <= i < |parts| :: sep !in parts[i]
    decreases |s|
  {
    if s == [] then [[]] else Extend(Split(s[..|s| - 1], sep), s[|s| - 1], sep)
  }

  /** The segments after one more character: a separator opens a new, empty segment;
      any other character extends the last one. */
  function Extend(parts: seq<string>, c: char, sep: char): (r: seq<string>)
    requires |parts| >= 1
    requires forall i | 0 <= i < |parts| :: sep !in parts[i]
    ensures |r| >= 1
    ensures forall i | 0 <= i < |r| :: sep !in r[i]
  {
    if c == sep then parts + [[]]
    else parts[..|parts| - 1] + [parts[|parts| - 1] + [c]]
  }

  /** Python's `sep.join(parts)`. */
  function Join(parts: seq<string>, sep: char): string
    requires |parts| >= 1
    decreases |parts|
  {
    if |parts| == 1 then parts[0]
    else Join(parts[..|parts| - 1], sep) + [sep] + parts[|parts| - 1]
  }

  /** Joining the segments of a split gives the topic back. */
  lemma {:induction false} JoinSplit(s: string, sep: char)
    ensures Join(Split(s, sep), sep) == s
    decreases |s|
  {
    if s != [] {
      var t, c := s[..|s| - 1], s[|s| - 1];
      assert s == t + [c];
      var init := Split(t, sep);
      JoinSplit(t, sep);
      var parts := Split(s, sep);
      assert parts == Extend(init, c, sep);
      if c == sep {
        assert parts == init + [[]];
        assert parts[..|parts| - 1] == init;
        assert Join(parts, sep) == Join(init, sep) + [sep] + [];
      } else {
        var last := init[|init| - 1];
        assert parts == init[..|init| - 1] + [last + [c]];
        if |init| == 1 {
          assert parts == [last + [c]];
          assert Join(parts, sep) == last + [c];
        } else {
          var front := init[..|init| - 1];
          assert parts[..|parts| - 1] == front;
          assert init[..|init| - 1] == front;
          assert Join(init, sep) == Join(front, sep) + [sep] + last;
          assert Join(parts, sep) == Join(front, sep) + [sep] + (last + [c]);
        }
      }
    }
  }

  /** Appending text without a separator only extends the last segment. */
  lemma {:induction false} SplitAppendPlain(s: string, w: string, sep: char)
    requires sep !in w
    ensures var p := Split(s, sep);
            Split(s + w, sep) == p[..|p| - 1] + [p[|p| - 1] + w]
    decreases |w|
  {
    var p := Split(s, sep);
    if w == [] {
      assert s + w == s;
      assert p[|p| - 1] + w == p[|p| - 1];
      assert p == p[..|p| - 1] + [p[|p| - 1]];
    } else {
      var v, c := w[..|w| - 1], w[|w| - 1];
      var front, last := p[..|p| - 1], p[|p| - 1];
      assert w == v + [c];
      SplitAppendPlain(s, v, sep);
      SplitAppendChar(s + v, c, sep, front, last + v);
      assert s + w == (s + v) + [c];
      assert (last + v) + [c] == last + w;
    }
  }

  /** One more character other than the separator extends the last segment. */
  lemma SplitAppendChar(t: string, c: char, sep: char, front: seq<string>, last: string)
    requires c != sep && Split(t, sep) == front + [last]
    ensures Split(t + [c], sep) == front + [last + [c]]
  {
    assert (t + [c])[..|t|] == t;
    assert (front + [last])[..|front|] == front;
  }

  /** Appending a separator starts a new, empty segment. */
  lemma SplitAppendSep(s: string, sep: char)
    ensures Split(s + [sep], sep) == Split(s, sep) + [[]]
  {
    assert (s + [sep])[..|s + [sep]| - 1] == s;
  }

  /** Splitting joined segments that contain no separator gives them back. */
  lemma {:induction false} SplitJoin(parts: seq<string>, sep: char)
    requires |parts| >= 1
    requires forall i | 0 <= i < |parts| :: sep !in parts[i]
    ensures Split(Join(parts, sep), sep) == parts
    decreases |parts|
  {
    if |parts| == 1 {
      SplitAppendPlain([], parts[0], sep);
      assert [] + parts[0] == parts[0];
    } else {
      var init, last := parts[..|parts| - 1], parts[|parts| - 1];
      SplitJoin(init, sep);
      var j := Join(init, sep);
      assert Join(parts, sep) == j + [sep] + last;
      SplitAppendSep(j, sep);
      SplitAppendPlain(j + [sep], last, sep);
      assert (init + [[]])[..|init|] == init;
      assert [] + last == last;
      assert parts == init + [last];
    }
  }

  /** The last segment of a split is the longest suffix free of separators. */
  lemma {:induction false} SplitLast(s: string, sep: char)
    ensures var p := Split(s, sep); var last := p[|p| - 1];
            && |last| <= |s| && last == s[|s| - |last|..]
            && (|last| == |s| || s[|s| - |last| - 1] == sep)
    decreases |s|
  {
    if s != [] {
      SplitLast(s[..|s| - 1], sep);
    }
  }

  /** The client identifier of `on_message`: `topic.split('/')[-1]`. It has no `/`,
      it ends the topic, and it is either the whole topic or preceded by a `/`. */
  function ClientIdOf(topic: string): (id: string)
    ensures '/' !in id
    ensures |id| <= |topic| && id == topic[|topic| - |id|..]
    ensures |id| == |topic| || topic[|topic| - |id| - 1] == '/'
  {
    SplitLast(topic, '/');
    var parts := Split(topic, '/');
    parts[|parts| - 1]
  }

  /** Any suffix with the three properties of `ClientIdOf` is the client identifier. */
  lemma ClientIdOfUnique(topic: string, id: string)
    requires '/' !in id
    requires |id| <= |topic| && id == topic[|topic| - |id|..]
    requires |id| == |topic| || topic[|topic| - |id| - 1] == '/'
    ensures ClientIdOf(topic) == id
  {
    var r := ClientIdOf(topic);
    assert |r| == |id|;
  }

  /** A topic made of a prefix, a `/` and a slash-free identifier names that identifier,
      e.g. `voice/stream/c1` names `c1`. */
  lemma ClientIdOfSegment(prefix: string, id: string)
    requires '/' !in id
    ensures ClientIdOf(prefix + "/" + id) == id
  {
    var t := prefix + "/" + id;
    assert t[|t| - |id|..] == id;
    assert t[|t| - |id| - 1] == '/';
    ClientIdOfUnique(t, id);
  }

  /** The subscription of the gateway: audio of any client arrives on `voice/stream/<id>`. */
  function StreamTopic(id: string): string { "voice/stream/" + id }

  /** Replies are published on `voice/response/<id>`. */
  function ResponseTopic(id: string): string { "voice/response/" + id }

  /** The reply for a chunk goes back to the client the chunk came from: the response
      topic built from a parsed identifier parses to that identifier again. */
  lemma ResponseTopicRoundTrip(topic: string)
    ensures ClientIdOf(ResponseTopic(ClientIdOf(topic))) == ClientIdOf(topic)
  {
    var id := ClientIdOf(topic);
    assert ResponseTopic(id) == "voice/response" + "/" + id;
    ClientIdOfSegment("voice/response", id);
  }

  /** A stream topic of a slash-free identifier names exactly that identifier. */
  lemma StreamTopicRoundTrip(id: string)
    requires '/' !in id
    ensures ClientIdOf(StreamTopic(id)) == id
  {
    assert StreamTopic(id) == "voice/stream" + "/" + id;
    ClientIdOfSegment("voice/stream", id);
  }
}
