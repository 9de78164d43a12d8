/**
 * The limit gate of a persona. As shipped it admits every turn: an early return sits in
 * front of the token and character ceilings, which are kept here as a separate predicate
 * that nothing in the turn consults.
 */
module Limits {
  import opened Wrappers
  import opened Records

  /** The three optional ceilings; an absent ceiling imposes nothing. */
  datatype LimitManager = LimitManager(maxMessages: Option<nat>, maxTokens: Option<int>, maxChars: Option<int>)

  /** The gate consulted by the turn: it returns true before looking at any ceiling. */
  function CheckLimits(lm: LimitManager, history: seq<Message>, newMessage: Option<string>): (allowed: bool)
    ensures allowed
  {
    true
  }

  /** Python truthiness of an optional string: present and non-empty. */
  predicate Truthy(s: Option<string>)
  {
    s.Some? && |s.value| > 0
  }

  /** What one row adds to the token sum: only a present, non-zero count is summed. */
  function TokenContribution(m: Message): int
  {
    match m.tokenCount
    case Some(n) => if n != 0 then n else 0
    case None => 0
  }

  function TokenTotal(history: seq<Message>): int
  {
    if |history| == 0 then 0 else TokenContribution(history[0]) + TokenTotal(history[1..])
  }

  /** What one row adds to the character sum: the length of a present, non-empty message. */
  function CharContribution(m: Message): nat
  {
    if Truthy(m.message) then |m.message.value| else 0
  }

  function CharTotal(history: seq<Message>): nat
  {
    if |history| == 0 then 0 else CharContribution(history[0]) + CharTotal(history[1..])
  }

  /**
   * The ceilings that follow the early return: a token ceiling reached by the history
   * denies, and a character ceiling denies when history plus the new text exceeds it.
   * The message-count ceiling is commented out and never applies.
   */
  predicate CeilingsAllow(lm: LimitManager, history: seq<Message>, newMessage: Option<string>): (allowed: bool)
    ensures lm.maxTokens.None? && lm.maxChars.None? ==> allowed
    ensures lm.maxTokens.Some? && TokenTotal(history) >= lm.maxTokens.value ==> !allowed
    ensures !Truthy(newMessage) || lm.maxChars.None? ==>
              (allowed <==> lm.maxTokens.None? || TokenTotal(history) < lm.maxTokens.value)
    ensures lm.maxTokens.None? && lm.maxChars.Some? && Truthy(newMessage) ==>
              (allowed <==> CharTotal(history) + |newMessage.value| <= lm.maxChars.value)
    ensures lm.maxChars.Some? && Truthy(newMessage) && CharTotal(history) + |newMessage.value| > lm.maxChars.value ==> !allowed
    // admitted exactly when neither ceiling that is set has been passed
    ensures allowed <==>
              && (lm.maxTokens.None? || TokenTotal(history) < lm.maxTokens.value)
              && (lm.maxChars.None? || !Truthy(newMessage) || CharTotal(history) + |newMessage.value| <= lm.maxChars.value)
  {
    if lm.maxTokens.Some? && TokenTotal(history) >= lm.maxTokens.value then false
    else if lm.maxChars.Some? && Truthy(newMessage)
      && CharTotal(history) + |newMessage.value| > lm.maxChars.value then false
    else true
  }

  lemma {:induction false} TokenTotalSplit(a: seq<Message>, b: seq<Message>)
    ensures TokenTotal(a + b) == TokenTotal(a) + TokenTotal(b)
  {
    if |a| == 0 {
      assert a + b == b;
    } else {
      assert (a + b)[1..] == a[1..] + b;
      TokenTotalSplit(a[1..], b);
    }
  }

  lemma {:induction false} CharTotalSplit(a: seq<Message>, b: seq<Message>)
    ensures CharTotal(a + b) == CharTotal(a) + CharTotal(b)
  {
    if |a| == 0 {
      assert a + b == b;
    } else {
      assert (a + b)[1..] == a[1..] + b;
      CharTotalSplit(a[1..], b);
    }
  }

  /** A row whose token count is null or zero, wherever it sits, leaves the token sum unchanged. */
  lemma TokenTotalIgnoresUncounted(a: seq<Message>, m: Message, b: seq<Message>)
    requires m.tokenCount == None || m.tokenCount == Some(0)
    ensures TokenTotal(a + [m] + b) == TokenTotal(a + b)
  {
    TokenTotalSplit(a + [m], b);
    TokenTotalSplit(a, [m]);
    TokenTotalSplit(a, b);
    assert TokenTotal([m]) == 0 by {
      assert [m][1..] == [];
    }
  }

  /** A row whose message is null or empty, wherever it sits, leaves the character sum unchanged. */
  lemma CharTotalIgnoresEmpty(a: seq<Message>, m: Message, b: seq<Message>)
    requires !Truthy(m.message)
    ensures CharTotal(a + [m] + b) == CharTotal(a + b)
  {
    CharTotalSplit(a + [m], b);
    CharTotalSplit(a, [m]);
    CharTotalSplit(a, b);
    assert CharTotal([m]) == 0 by {
      assert [m][1..] == [];
    }
  }

  /**
   * The character ceiling admits exactly up to equality: with no token ceiling and a
   * non-empty new message, a ceiling equal to history plus new text admits, one below denies.
   */
  lemma CharCeilingBoundary(history: seq<Message>, newMessage: string)
    requires |newMessage| > 0
    ensures CeilingsAllow(LimitManager(None, None, Some(CharTotal(history) + |newMessage|)), history, Some(newMessage))
    ensures !CeilingsAllow(LimitManager(None, None, Some(CharTotal(history) + |newMessage| - 1)), history, Some(newMessage))
  {
  }

  /** A 90-character history under a 100-character ceiling: 20 more characters deny, 5 admit. */
  lemma CharCeilingExample(m: Message)
    requires m.message == Some(seq(90, _ => 'a'))
    ensures !CeilingsAllow(LimitManager(None, None, Some(100)), [m], Some(seq(20, _ => 'b')))
    ensures CeilingsAllow(LimitManager(None, None, Some(100)), [m], Some(seq(5, _ => 'b')))
  {
    assert CharTotal([m]) == 90 by {
      assert [m][1..] == [];
    }
  }

  /** The shipped gate admits a history the dead ceilings would refuse. */
  lemma GateIgnoresCeilings(history: seq<Message>, newMessage: Option<string>)
    ensures !CeilingsAllow(LimitManager(None, Some(TokenTotal(history)), None), history, newMessage)
    ensures CheckLimits(LimitManager(None, Some(TokenTotal(history)), None), history, newMessage)
  {
  }
}
