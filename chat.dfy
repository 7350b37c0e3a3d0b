/**
 * The chat service's own bookkeeping: the prompt-token estimate taken before each LLM call,
 * the output-length clamp, the session store that creates a history on first use, and the
 * truncation of old Human/AI turns once the running total exceeds the budget.
 *
 * The tokenizer (`len(tokenembed.encode(s))`) is the uninterpreted function `Settings.tokens`;
 * the retrieval chains and their streaming are outside the model, and an exchange is taken to
 * add one Human/AI pair to the session's history.
 */
module Chat {
  import opened Wrappers

  datatype Role = Human | AI

  /** A `HumanMessage` or `AIMessage`: only its content is counted. */
  datatype Message = Message(role: Role, content: string)

  type SessionId = int

  /** Token counter of the configured encoding, left uninterpreted. */
  type Tokenizer = string -> nat

  /**
   * The module-level configuration: the encoding, the integers read from the environment
   * (TOKEN_HISTORY_PADDING, TOKEN_PROMPT_PADDING, MAX_TOKENS) and the rendered text of the
   * two prompt templates (`pretty_repr()` of QUESTION_MAKER_PROMPT and PROMPT).
   */
  datatype Settings = Settings(
    tokens: Tokenizer,
    historyPadding: int,
    promptPadding: int,
    maxTokens: int,
    questionPrompt: string,
    ragPrompt: string)

  /** `truncate` keeps this many tokens of headroom below MAX_TOKENS. */
  const TruncateMargin := 500

  function TokenLimit(s: Settings): int {
    s.maxTokens - TruncateMargin
  }

  /** Tokens charged for one message of history: its content plus the per-message padding. */
  function MessageCost(s: Settings, m: Message): int {
    s.tokens(m.content) + s.historyPadding
  }

  /** The generator-expression sum over a history's messages. */
  function HistoryCost(s: Settings, msgs: seq<Message>): int {
    if msgs == [] then 0 else MessageCost(s, msgs[0]) + HistoryCost(s, msgs[1..])
  }

  /** The counter `truncate` assigns after reading a leading pair. */
  function PairCost(s: Settings, a: Message, b: Message): int {
    s.tokens(a.content) + s.tokens(b.content) + 2 * s.historyPadding
  }

  /** The history sum splits over concatenation. */
  lemma {:induction false} HistoryCostAppend(s: Settings, a: seq<Message>, b: seq<Message>)
    ensures HistoryCost(s, a + b) == HistoryCost(s, a) + HistoryCost(s, b)
    decreases |a|
  {
    if a == [] {
      assert a + b == b;
    } else {
      assert (a + b)[0] == a[0];
      assert (a + b)[1..] == a[1..] + b;
      HistoryCostAppend(s, a[1..], b);
    }
  }

  /** A pair's counter is the history cost of those two messages. */
  lemma PairCostIsHistoryCost(s: Settings, a: Message, b: Message)
    ensures PairCost(s, a, b) == HistoryCost(s, [a, b])
  {
    assert [a, b][1..] == [b];
    assert [b][1..] == [];
    assert HistoryCost(s, [b]) == MessageCost(s, b);
  }

  /**
   * The estimate taken before the LLM call: the history sum (nothing when the session has no
   * entry yet), the request, both prompt templates and the prompt padding.
   */
  function PromptEstimate(s: Settings, history: Option<seq<Message>>, request: string): int {
    var historyTokens := if history.Some? then HistoryCost(s, history.value) else 0;
    historyTokens + s.tokens(request) + s.tokens(s.questionPrompt) + s.tokens(s.ragPrompt) + s.promptPadding
  }

  /** An absent session is estimated exactly like an empty history. */
  lemma EstimateAbsentIsEmpty(s: Settings, request: string)
    ensures PromptEstimate(s, None, request) == PromptEstimate(s, Some([]), request)
  {
  }

  /**
   * One exchange adds the tokens of the question and of the answer, each with its padding,
   * to the estimate of the next request.
   */
  lemma EstimateAfterExchange(s: Settings, history: seq<Message>, question: string, answer: string, next: string)
    ensures PromptEstimate(s, Some(history + [Message(Human, question), Message(AI, answer)]), next)
         == PromptEstimate(s, Some(history), next) + s.tokens(question) + s.tokens(answer) + 2 * s.historyPadding
  {
    HistoryCostAppend(s, history, [Message(Human, question), Message(AI, answer)]);
    PairCostIsHistoryCost(s, Message(Human, question), Message(AI, answer));
  }

  function Abs(x: int): (r: nat)
    ensures r == x || r == -x
  {
    if x < 0 then -x else x
  }

  /** `llm.max_output_tokens = abs(MAX_TOKENS - total)` */
  function MaxOutputTokens(s: Settings, estimate: int): (r: nat)
    ensures estimate <= s.maxTokens ==> estimate + r == s.maxTokens
    ensures estimate > s.maxTokens ==> r == estimate - s.maxTokens
  {
    Abs(s.maxTokens - estimate)
  }

  /**
   * Past the budget the clamp works backwards: a larger prompt gets a larger output allowance,
   * and prompt plus allowance exceeds MAX_TOKENS.
   */
  lemma OverBudgetRaisesOutputLimit(s: Settings, e1: int, e2: int)
    requires s.maxTokens < e1 < e2
    ensures MaxOutputTokens(s, e1) < MaxOutputTokens(s, e2)
    ensures e1 + MaxOutputTokens(s, e1) > s.maxTokens
  {
  }

  /** What `truncate` leaves in the list, and whether it raised on reaching `history[1]`. */
  datatype Truncation = Truncation(remaining: seq<Message>, raised: bool)

  /**
   * `truncate(history, total_)` as written: while the counter is at or above the limit and the
   * list is not empty, the counter is SET to the cost of the leading pair and the pair is
   * deleted. A single remaining message makes `history[1]` raise, with that message left.
   */
  function Truncated(s: Settings, history: seq<Message>, total: int): (r: Truncation)
    ensures |r.remaining| <= |history|
    ensures r.raised ==> |r.remaining| == 1
    decreases |history|
  {
    if total < TokenLimit(s) || history == [] then Truncation(history, false)
    else if |history| == 1 then Truncation(history, true)
    else Truncated(s, history[2..], PairCost(s, history[0], history[1]))
  }

  /** How many leading messages `truncate` deletes. */
  function Deleted(s: Settings, history: seq<Message>, total: int): nat {
    |history| - |Truncated(s, history, total).remaining|
  }

  /** `truncate` only deletes from the front, and whole pairs at a time. */
  lemma {:induction false} TruncateDeletesLeadingPairs(s: Settings, history: seq<Message>, total: int)
    ensures Deleted(s, history, total) % 2 == 0
    ensures Truncated(s, history, total).remaining == history[Deleted(s, history, total)..]
    decreases |history|
  {
    if total >= TokenLimit(s) && |history| >= 2 {
      var rest := history[2..];
      var t := PairCost(s, history[0], history[1]);
      TruncateDeletesLeadingPairs(s, rest, t);
      var d := Deleted(s, rest, t);
      assert Deleted(s, history, total) == d + 2;
      assert rest[d..] == history[d + 2..];
    } else {
      assert history[0..] == history;
    }
  }

  /**
   * At or above the limit, a non-empty list loses at least its leading pair, or raises: the
   * loop runs at least once.
   */
  lemma TruncateDeletesAboveLimit(s: Settings, history: seq<Message>, total: int)
    requires total >= TokenLimit(s) && history != []
    ensures Truncated(s, history, total).raised || Deleted(s, history, total) >= 2
  {
    if |history| >= 2 {
      TruncateDeletesLeadingPairs(s, history[2..], PairCost(s, history[0], history[1]));
    }
  }

  /** Below the limit, or on an empty list, nothing is deleted. */
  lemma TruncateBelowLimitUnchanged(s: Settings, history: seq<Message>, total: int)
    requires total < TokenLimit(s) || history == []
    ensures Truncated(s, history, total) == Truncation(history, false)
  {
  }

  /**
   * `truncate` deletes whole pairs: an even-length history never raises and stays even, an odd
   * one never empties, and a raise leaves the last message alone.
   */
  lemma {:induction false} TruncateParity(s: Settings, history: seq<Message>, total: int)
    ensures |history| % 2 == 0 ==> !Truncated(s, history, total).raised
    ensures |Truncated(s, history, total).remaining| % 2 == |history| % 2
    ensures Truncated(s, history, total).raised
      ==> Truncated(s, history, total).remaining == [history[|history| - 1]]
    decreases |history|
  {
    if total >= TokenLimit(s) && |history| >= 2 {
      var rest := history[2..];
      TruncateParity(s, rest, PairCost(s, history[0], history[1]));
      assert Truncated(s, history, total) == Truncated(s, rest, PairCost(s, history[0], history[1]));
      assert |rest| % 2 == |history| % 2;
      if |rest| > 0 {
        assert rest[|rest| - 1] == history[|history| - 1];
      }
    } else if |history| == 1 && total >= TokenLimit(s) {
      assert Truncated(s, history, total) == Truncation(history, true);
      assert history == [history[|history| - 1]];
    }
  }

  /**
   * The incoming total only decides whether the loop starts: any two totals at or above the
   * limit give the same result, because the counter is replaced rather than decremented.
   */
  lemma TruncateIgnoresExcess(s: Settings, history: seq<Message>, t1: int, t2: int)
    requires t1 >= TokenLimit(s) && t2 >= TokenLimit(s)
    ensures Truncated(s, history, t1) == Truncated(s, history, t2)
  {
  }

  /**
   * The loop stops right after deleting a pair that costs less than the limit, unless the list
   * ran empty (or raised): the last deleted pair is cheap or nothing is left.
   */
  lemma {:induction false} TruncateStopsAtCheapPair(s: Settings, history: seq<Message>, total: int)
    requires !Truncated(s, history, total).raised && Truncated(s, history, total).remaining != []
    requires Deleted(s, history, total) >= 2
    ensures PairCost(s, history[Deleted(s, history, total) - 2], history[Deleted(s, history, total) - 1])
      < TokenLimit(s)
    decreases |history|
  {
    var rest := history[2..];
    var t := PairCost(s, history[0], history[1]);
    var d := Deleted(s, rest, t);
    assert Deleted(s, history, total) == d + 2;
    if d >= 2 {
      TruncateStopsAtCheapPair(s, rest, t);
      assert history[d + 2 - 2] == rest[d - 2] && history[d + 2 - 1] == rest[d - 1];
    }
  }

  /**
   * Every deleted pair except the last one cost at least the limit (the loop went on after it);
   * when the call raised, the last deleted pair did too.
   */
  lemma {:induction false} TruncateDeletedPairsCostly(s: Settings, history: seq<Message>, total: int, j: nat)
    requires 2 * j + 2 < Deleted(s, history, total)
      || (Truncated(s, history, total).raised && 2 * j + 2 == Deleted(s, history, total))
    ensures PairCost(s, history[2 * j], history[2 * j + 1]) >= TokenLimit(s)
    decreases |history|
  {
    var rest := history[2..];
    var t := PairCost(s, history[0], history[1]);
    assert Deleted(s, history, total) == Deleted(s, rest, t) + 2;
    if j == 0 {
      // the pair deleted first set the counter, and the loop ran on (or raised) after it
      assert t >= TokenLimit(s);
    } else {
      TruncateDeletedPairsCostly(s, rest, t, j - 1);
      assert history[2 * j] == rest[2 * (j - 1)] && history[2 * j + 1] == rest[2 * (j - 1) + 1];
    }
  }

  /**
   * The truncation the budget calls for: the counter goes DOWN by the cost of each deleted pair,
   * so deletion goes on until the history that is left is back under the limit.
   */
  function TruncatedIntended(s: Settings, history: seq<Message>, total: int): (r: Truncation)
    decreases |history|
  {
    if total < TokenLimit(s) || history == [] then Truncation(history, false)
    else if |history| == 1 then Truncation(history, true)
    else TruncatedIntended(s, history[2..], total - PairCost(s, history[0], history[1]))
  }

  /**
   * The corrected truncation deletes an even-length prefix, and unless it raised or emptied the
   * history, the incoming total minus the cost of what it deleted is below the limit.
   */
  lemma {:induction false} TruncatedIntendedWithinBudget(s: Settings, history: seq<Message>, total: int)
    ensures var r := TruncatedIntended(s, history, total);
      var d := |history| - |r.remaining|;
      0 <= d && d % 2 == 0 && r.remaining == history[d..]
      && (r.raised || r.remaining == [] || total - HistoryCost(s, history[..d]) < TokenLimit(s))
    decreases |history|
  {
    if total >= TokenLimit(s) && |history| >= 2 {
      var rest := history[2..];
      var t := total - PairCost(s, history[0], history[1]);
      TruncatedIntendedWithinBudget(s, rest, t);
      var r := TruncatedIntended(s, rest, t);
      var d := |rest| - |r.remaining|;
      assert history[..d + 2] == [history[0], history[1]] + rest[..d];
      HistoryCostAppend(s, [history[0], history[1]], rest[..d]);
      PairCostIsHistoryCost(s, history[0], history[1]);
    } else if total < TokenLimit(s) || history == [] {
      assert history[..0] == [];
    }
  }

  /** The tokenizer of the counterexample: the text "x" costs 100 tokens, every other text 1. */
  function ExampleTokens(t: string): nat {
    if t == "x" then 100 else 1
  }

  /** No padding and MAX_TOKENS 510, so the limit is 10. */
  const ExampleSettings := Settings(ExampleTokens, 0, 0, 510, "", "")

  /** A cheap exchange, an expensive one, and a cheap one again. */
  const ExampleHistory := [Message(Human, "a"), Message(AI, "b"), Message(Human, "x"), Message(AI, "x"),
                           Message(Human, "c"), Message(AI, "d")]

  lemma ExampleCosts()
    ensures HistoryCost(ExampleSettings, ExampleHistory) == 204
    ensures HistoryCost(ExampleSettings, ExampleHistory[2..]) == 202
    ensures HistoryCost(ExampleSettings, ExampleHistory[4..]) == 2
    ensures TokenLimit(ExampleSettings) == 10
  {
    var s, h := ExampleSettings, ExampleHistory;
    assert h[4..] == [h[4], h[5]];
    PairCostIsHistoryCost(s, h[4], h[5]);
    assert h[2..] == [h[2], h[3]] + h[4..];
    PairCostIsHistoryCost(s, h[2], h[3]);
    HistoryCostAppend(s, [h[2], h[3]], h[4..]);
    assert h == [h[0], h[1]] + h[2..];
    PairCostIsHistoryCost(s, h[0], h[1]);
    HistoryCostAppend(s, [h[0], h[1]], h[2..]);
  }

  /** As written, the loop deletes the cheap first pair, sets the counter to 2 and stops. */
  lemma ExampleAsWritten()
    ensures Truncated(ExampleSettings, ExampleHistory, 204) == Truncation(ExampleHistory[2..], false)
  {
    var s, h := ExampleSettings, ExampleHistory;
    assert PairCost(s, h[0], h[1]) == 2;
    assert Truncated(s, h[2..], 2) == Truncation(h[2..], false);
  }

  /** The corrected loop deletes the two leading pairs and stops under the limit. */
  lemma ExampleIntended()
    ensures TruncatedIntended(ExampleSettings, ExampleHistory, 204) == Truncation(ExampleHistory[4..], false)
  {
    var s, h := ExampleSettings, ExampleHistory;
    var rest := h[2..];
    assert PairCost(s, h[0], h[1]) == 2;
    assert rest[0] == h[2] && rest[1] == h[3] && rest[2..] == h[4..];
    assert PairCost(s, rest[0], rest[1]) == 200;
    assert TruncatedIntended(s, h, 204) == TruncatedIntended(s, rest, 202);
    assert TruncatedIntended(s, rest, 202) == TruncatedIntended(s, h[4..], 2);
  }

  /**
   * A history of 204 tokens with a limit of 10: the code as written deletes the cheap first pair
   * and stops with 202 tokens of history left, over the limit on its own, where the corrected
   * truncation also deletes the expensive pair and leaves 2 tokens.
   */
  lemma TruncateLeavesOverBudget()
    ensures HistoryCost(ExampleSettings, ExampleHistory) == 204
    ensures Truncated(ExampleSettings, ExampleHistory, 204) == Truncation(ExampleHistory[2..], false)
    ensures HistoryCost(ExampleSettings, ExampleHistory[2..]) >= TokenLimit(ExampleSettings)
    ensures TruncatedIntended(ExampleSettings, ExampleHistory, 204) == Truncation(ExampleHistory[4..], false)
    ensures HistoryCost(ExampleSettings, ExampleHistory[4..]) < TokenLimit(ExampleSettings)
  {
    ExampleCosts();
    ExampleAsWritten();
    ExampleIntended();
  }

  /** `ChatMessageHistory`: its `messages` list is mutated in place. */
  class ChatHistory {
    var messages: seq<Message>

    constructor ()
      ensures messages == []
    {
      messages := [];
    }
  }

  /**
   * `truncate(history, total_)`, deleting from the list object itself. Deletions made before
   * `history[1]` raises stay in the list; `raised` reports that exception.
   */
  method Truncate(s: Settings, history: ChatHistory, total: int) returns (raised: bool)
    modifies history
    ensures Truncation(history.messages, raised) == Truncated(s, old(history.messages), total)
  {
    var limit := TokenLimit(s);
    var counter := total;
    raised := false;
    while counter >= limit && history.messages != []
      invariant Truncated(s, history.messages, counter) == Truncated(s, old(history.messages), total)
      decreases |history.messages|
    {
      if |history.messages| < 2 {
        raised := true;
        return;
      }
      counter := s.tokens(history.messages[0].content) + s.tokens(history.messages[1].content)
                 + 2 * s.historyPadding;
      history.messages := history.messages[2..];
    }
  }

  /** `st.session_state`: session id to its chat history object. */
  class SessionStore {
    var sessions: map<SessionId, ChatHistory>

    /** Different sessions never share one history object. */
    ghost predicate Valid()
      reads this
    {
      forall a, b :: a in sessions && b in sessions && a != b ==> sessions[a] != sessions[b]
    }

    constructor ()
      ensures Valid() && sessions == map[]
    {
      sessions := map[];
    }

    /** The messages of a session, or None when it has no entry. */
    function Lookup(id: SessionId): Option<seq<Message>>
      reads this, sessions.Values
    {
      if id in sessions then Some(sessions[id].messages) else None
    }

    /** `get_session_history`: the existing history, or a new empty one stored under `id`. */
    method GetSessionHistory(id: SessionId) returns (h: ChatHistory)
      requires Valid()
      modifies this
      ensures Valid()
      ensures id in sessions && sessions[id] == h
      ensures id in old(sessions) ==> sessions == old(sessions)
      ensures id !in old(sessions) ==> fresh(h) && h.messages == [] && sessions == old(sessions)[id := h]
    {
      if id !in sessions {
        var created := new ChatHistory();
        sessions := sessions[id := created];
      }
      h := sessions[id];
    }

    /**
     * The bookkeeping of `generate_response` around one exchange that answered `request` with
     * `response`: the estimate is taken before the call and sets the output allowance, the
     * history gains the Human/AI pair, and the list is truncated against the response tokens
     * plus that estimate. `raised` reports the exception `truncate` can raise.
     */
    method GenerateResponse(s: Settings, id: SessionId, request: string, response: string)
      returns (maxOutput: nat, raised: bool)
      requires Valid()
      modifies this, sessions.Values
      ensures Valid()
      ensures maxOutput == MaxOutputTokens(s, PromptEstimate(s, old(Lookup(id)), request))
      ensures id in sessions && sessions.Keys == old(sessions.Keys) + {id}
      ensures id in old(sessions) ==> sessions == old(sessions)
      ensures var before := if id in old(sessions) then old(sessions[id].messages) else [];
        Truncation(sessions[id].messages, raised)
          == Truncated(s, before + [Message(Human, request), Message(AI, response)],
                       s.tokens(response) + PromptEstimate(s, old(Lookup(id)), request))
      ensures forall k :: k in old(sessions) && k != id ==>
        sessions[k] == old(sessions[k]) && sessions[k].messages == old(sessions[k].messages)
    {
      var estimate := PromptEstimate(s, Lookup(id), request);
      maxOutput := MaxOutputTokens(s, estimate);
      var h := GetSessionHistory(id);
      h.messages := h.messages + [Message(Human, request), Message(AI, response)];
      var overall := s.tokens(response) + estimate;
      raised := Truncate(s, h, overall);
    }
  }

  /** Asking for the same session twice returns the same object and leaves the store as the first call did. */
  method SessionLookupIdempotent(store: SessionStore, id: SessionId) returns (h1: ChatHistory, h2: ChatHistory)
    requires store.Valid()
    modifies store
    ensures store.Valid()
    ensures h1 == h2 && id in store.sessions && store.sessions[id] == h1
    ensures id in old(store.sessions) ==> store.sessions == old(store.sessions)
    ensures id !in old(store.sessions) ==> store.sessions == old(store.sessions)[id := h1]
  {
    h1 := store.GetSessionHistory(id);
    h2 := store.GetSessionHistory(id);
  }
}
