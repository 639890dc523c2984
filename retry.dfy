/** The bounded retry policy of `get_ai_response`: up to three calls to the language
    model, one second of sleep after each failed call but the last, and a fixed
    apology when every call failed. The model's answers are an oracle: the i-th entry
    says how the i-th call ends. */
module Retry {

  const MaxRetries: nat := 3
  /** The reply returned when every call failed. */
  const Fallback: string := "抱歉,我现在无法回答。请稍后再试。"

  /** How one call to the chat completion service ends: with the content of the first
      choice, or with an exception (timeout, transport error, missing choice). */
  datatype Attempt = Replied(content: string) | Raised

  /** The outcome of the call numbered `i`; a call the oracle says nothing about raises. */
  function AttemptAt(outcomes: seq<Attempt>, i: nat): Attempt {
    if i < |outcomes| then outcomes[i] else Raised
  }

  /** `get_ai_response`: returns the reply, how many calls were made and how many
      times it slept. It stops at the first call that succeeds and returns its
      content; it makes at most `MaxRetries` calls; it never sleeps after the last call;
      when all calls fail it returns `Fallback` instead of raising. */
  method GetAiResponse(outcomes: seq<Attempt>) returns (reply: string, calls: nat, sleeps: nat)
    ensures 1 <= calls <= MaxRetries
    ensures sleeps == calls - 1
    ensures forall i | 0 <= i < calls - 1 :: AttemptAt(outcomes, i) == Raised
    ensures AttemptAt(outcomes, calls - 1).Replied? ==> reply == AttemptAt(outcomes, calls - 1).content
    ensures AttemptAt(outcomes, calls - 1) == Raised ==> calls == MaxRetries && reply == Fallback
  {
    calls, sleeps := 0, 0;
    for attempt := 0 to MaxRetries
      invariant attempt < MaxRetries
      invariant calls == attempt && sleeps == attempt
      invariant forall i | 0 <= i < attempt :: AttemptAt(outcomes, i) == Raised
    {
      calls := calls + 1;
      var outcome := AttemptAt(outcomes, attempt);
      if outcome.Replied? {
        return outcome.content, calls, sleeps;
      }
      if attempt == MaxRetries - 1 {
        return Fallback, calls, sleeps;
      }
      sleeps := sleeps + 1;
    }
    assert false;
  }
}
