/** The bounded transcript of a turn and its compaction: rust/src/assistant/model.rs and compact in
    rust/src/assistant/turn.rs. */
module Transcript {
  import opened Wrappers
  import opened Budget
  import opened Policy

  datatype Message =
    | User(content: string)
    | Assistant(content: string)
    | AssistantToolCalls(calls: seq<ProposedToolCall>)
    | ToolResult(callId: string, toolName: string, content: string)

  function CallChars(calls: seq<ProposedToolCall>): nat {
    if calls == [] then 0 else |calls[0].name| + |calls[0].argumentText| + CallChars(calls[1..])
  }

  function Chars(m: Message): nat {
    match m
    case User(content) => |content|
    case Assistant(content) => |content|
    case AssistantToolCalls(calls) => CallChars(calls)
    case ToolResult(_, toolName, content) => |toolName| + |content|
  }

  function TotalChars(ms: seq<Message>): nat {
    if ms == [] then 0 else Chars(ms[0]) + TotalChars(ms[1..])
  }

  // ---- the text that is counted ----

  /** All texts, one after the other. */
  function Concatenated(texts: seq<string>): string {
    if texts == [] then [] else texts[0] + Concatenated(texts[1..])
  }

  lemma {:induction false} ConcatenatedAppends(a: seq<string>, b: seq<string>)
    ensures Concatenated(a + b) == Concatenated(a) + Concatenated(b)
  {
    if a == [] {
      assert a + b == b;
    } else {
      assert (a + b)[1..] == a[1..] + b;
      ConcatenatedAppends(a[1..], b);
    }
  }

  function CallTexts(calls: seq<ProposedToolCall>): seq<string> {
    if calls == [] then [] else [calls[0].name, calls[0].argumentText] + CallTexts(calls[1..])
  }

  /** The texts a model reads in a message: contents, tool names, and the names and arguments of calls. */
  function Texts(m: Message): seq<string> {
    if m.AssistantToolCalls? then CallTexts(m.calls)
    else if m.ToolResult? then [m.toolName, m.content]
    else [m.content]
  }

  /** The text of a transcript. */
  function PromptText(ms: seq<Message>): string {
    if ms == [] then [] else Concatenated(Texts(ms[0])) + PromptText(ms[1..])
  }

  lemma {:induction false} CallCharsCount(calls: seq<ProposedToolCall>)
    ensures CallChars(calls) == |Concatenated(CallTexts(calls))|
  {
    if calls != [] {
      CallCharsCount(calls[1..]);
      ConcatenatedAppends([calls[0].name, calls[0].argumentText], CallTexts(calls[1..]));
      ConcatenatedPair(calls[0].name, calls[0].argumentText);
    }
  }

  lemma ConcatenatedPair(a: string, b: string)
    ensures Concatenated([a]) == a && Concatenated([a, b]) == a + b
  {
    assert [a][1..] == [] && [a, b][1..] == [b];
    assert Concatenated([b]) == b + Concatenated([b][1..]) && [b][1..] == [];
  }

  lemma CharsCount(m: Message)
    ensures Chars(m) == |Concatenated(Texts(m))|
  {
    match m {
      case User(content) => ConcatenatedPair(content, []);
      case Assistant(content) => ConcatenatedPair(content, []);
      case AssistantToolCalls(calls) => CallCharsCount(calls);
      case ToolResult(_, toolName, content) => ConcatenatedPair(toolName, content);
    }
  }

  /** What is charged for a transcript is the length of its text. */
  lemma {:induction false} TotalCharsCount(ms: seq<Message>)
    ensures TotalChars(ms) == |PromptText(ms)|
  {
    if ms != [] {
      CharsCount(ms[0]);
      TotalCharsCount(ms[1..]);
      hide Chars, Texts, Concatenated;
    }
  }

  lemma {:induction false} PromptTextAppends(a: seq<Message>, b: seq<Message>)
    ensures PromptText(a + b) == PromptText(a) + PromptText(b)
  {
    hide Texts, Concatenated;
    if a == [] {
      assert a + b == b;
    } else {
      assert (a + b)[1..] == a[1..] + b;
      PromptTextAppends(a[1..], b);
    }
  }

  // ---- compaction ----

  function FirstCalls(ms: seq<Message>): (r: Option<nat>)
    ensures r.Some? ==> r.value < |ms| && ms[r.value].AssistantToolCalls?
    ensures r.Some? ==> forall i | 0 <= i < r.value :: !ms[i].AssistantToolCalls?
    ensures r.None? ==> forall m | m in ms :: !m.AssistantToolCalls?
  {
    if ms == [] then None
    else if ms[0].AssistantToolCalls? then Some(0)
    else
      var rest := FirstCalls(ms[1..]);
      if rest.Some? then Some(rest.value + 1) else None
  }

  predicate Answers(m: Message, calls: seq<ProposedToolCall>) {
    m.ToolResult? && exists c | c in calls :: c.id == m.callId
  }

  /** The messages that are not results of these calls. */
  function Retained(ms: seq<Message>, calls: seq<ProposedToolCall>): (r: seq<Message>)
    ensures |r| <= |ms|
  {
    if ms == [] then []
    else (if Answers(ms[0], calls) then [] else [ms[0]]) + Retained(ms[1..], calls)
  }

  lemma {:induction false} RetainedAppends(a: seq<Message>, b: seq<Message>, calls: seq<ProposedToolCall>)
    ensures Retained(a + b, calls) == Retained(a, calls) + Retained(b, calls)
  {
    if a == [] {
      assert a + b == b;
    } else {
      assert (a + b)[1..] == a[1..] + b;
      RetainedAppends(a[1..], b, calls);
    }
  }

  predicate Fits(ms: seq<Message>, instructionChars: nat) {
    instructionChars + |PromptText(ms)| <= MAX_PROMPT_CONTEXT_CHARS
  }

  /** Drop the oldest round trip. */
  function Dropped(ms: seq<Message>, i: nat): (r: seq<Message>)
    requires i < |ms| && ms[i].AssistantToolCalls?
    ensures |r| < |ms|
  {
    Retained(ms[..i] + ms[i + 1..], ms[i].calls)
  }

  function Compacted(ms: seq<Message>, instructionChars: nat): Result<seq<Message>, BudgetError>
    decreases |ms|
  {
    if Fits(ms, instructionChars) then Ok(ms)
    else match FirstCalls(ms)
      case None => Err(PromptContext)
      case Some(i) => Compacted(Dropped(ms, i), instructionChars)
  }

  method Compact(messages: seq<Message>, instructionChars: nat) returns (r: Result<seq<Message>, BudgetError>)
    ensures r == Compacted(messages, instructionChars)
  {
    var transcript := messages;
    TotalCharsCount(transcript);
    while instructionChars + TotalChars(transcript) > MAX_PROMPT_CONTEXT_CHARS
      invariant Compacted(transcript, instructionChars) == Compacted(messages, instructionChars)
      invariant TotalChars(transcript) == |PromptText(transcript)|
      decreases |transcript|
    {
      var index := FirstCalls(transcript);
      if index.None? {
        return Err(PromptContext);
      }
      var calls := transcript[index.value].calls;
      transcript := transcript[..index.value] + transcript[index.value + 1..];
      transcript := Retained(transcript, calls);
      TotalCharsCount(transcript);
    }
    return Ok(transcript);
  }

  // ---- round trips ----

  /** A proposed batch and the results of its calls. */
  datatype Round = Round(calls: seq<ProposedToolCall>, results: seq<Message>)

  /** Exactly the batch's own results, in order. */
  predicate Complete(r: Round) {
    && |r.results| == |r.calls|
    && forall i | 0 <= i < |r.calls| :: r.results[i].ToolResult? && r.results[i].callId == r.calls[i].id
  }

  predicate SharesId(a: Round, b: Round) {
    exists c, d | c in a.calls && d in b.calls :: c.id == d.id
  }

  predicate Separate(rounds: seq<Round>) {
    && (forall r | r in rounds :: Complete(r))
    && forall i, j | 0 <= i < j < |rounds| :: !SharesId(rounds[i], rounds[j])
  }

  function Flatten(rounds: seq<Round>): seq<Message> {
    if rounds == [] then []
    else [AssistantToolCalls(rounds[0].calls)] + rounds[0].results + Flatten(rounds[1..])
  }

  function Whole(question: string, rounds: seq<Round>): seq<Message> {
    [User(question)] + Flatten(rounds)
  }

  lemma {:induction false} FlattenAppends(a: seq<Round>, b: seq<Round>)
    ensures Flatten(a + b) == Flatten(a) + Flatten(b)
  {
    if a == [] {
      assert a + b == b;
    } else {
      assert (a + b)[1..] == a[1..] + b;
      FlattenAppends(a[1..], b);
    }
  }

  lemma {:induction false} OwnResultsGo(ms: seq<Message>, calls: seq<ProposedToolCall>)
    requires forall m | m in ms :: Answers(m, calls)
    ensures Retained(ms, calls) == []
  {
    if ms != [] {
      OwnResultsGo(ms[1..], calls);
    }
  }

  lemma {:induction false} OthersStay(ms: seq<Message>, calls: seq<ProposedToolCall>)
    requires forall m | m in ms :: !Answers(m, calls)
    ensures Retained(ms, calls) == ms
  {
    if ms != [] {
      OthersStay(ms[1..], calls);
      assert ms == [ms[0]] + ms[1..];
    }
  }

  lemma {:induction false} OtherRoundsStay(first: Round, rounds: seq<Round>)
    requires forall r | r in rounds :: Complete(r) && !SharesId(first, r)
    ensures forall m | m in Flatten(rounds) :: !Answers(m, first.calls)
  {
    if rounds != [] {
      OtherRoundsStay(first, rounds[1..]);
      var r := rounds[0];
      assert r in rounds && Complete(r) && !SharesId(first, r);
      forall m | m in r.results
        ensures !Answers(m, first.calls)
      {
        var i: nat :| i < |r.results| && r.results[i] == m;
        assert r.calls[i] in r.calls && m.callId == r.calls[i].id;
      }
    }
  }

  lemma FirstRoundGoes(first: Round, later: seq<Message>)
    requires Complete(first) && forall m | m in later :: !Answers(m, first.calls)
    ensures Retained(first.results + later, first.calls) == later
  {
    forall m | m in first.results
      ensures Answers(m, first.calls)
    {
      var i: nat :| i < |first.results| && first.results[i] == m;
      assert first.calls[i] in first.calls;
    }
    OwnResultsGo(first.results, first.calls);
    OthersStay(later, first.calls);
    RetainedAppends(first.results, later, first.calls);
  }

  lemma LaterRoundsAreSeparate(rounds: seq<Round>)
    requires rounds != [] && Separate(rounds)
    ensures Complete(rounds[0]) && forall r | r in rounds[1..] :: Complete(r) && !SharesId(rounds[0], r)
  {
    hide SharesId, Complete;
    forall r | r in rounds[1..]
      ensures Complete(r) && !SharesId(rounds[0], r)
    {
      var j: nat :| j < |rounds[1..]| && rounds[1..][j] == r;
      assert rounds[j + 1] == r;
    }
  }

  /** Dropping by call identifier removes exactly the oldest round. */
  lemma DropsOldestRound(question: string, rounds: seq<Round>)
    requires rounds != [] && Separate(rounds)
    ensures FirstCalls(Whole(question, rounds)) == Some(1)
    ensures Dropped(Whole(question, rounds), 1) == Whole(question, rounds[1..])
  {
    LaterRoundsAreSeparate(rounds);
    OtherRoundsStay(rounds[0], rounds[1..]);
    FirstRoundGoes(rounds[0], Flatten(rounds[1..]));
    DropAfterUser(question, rounds[0].calls, rounds[0].results + Flatten(rounds[1..]));
    Regrouped(User(question), AssistantToolCalls(rounds[0].calls), rounds[0].results, Flatten(rounds[1..]));
    assert Flatten(rounds) == [AssistantToolCalls(rounds[0].calls)] + rounds[0].results + Flatten(rounds[1..]);
    hide *;
  }

  lemma Regrouped<T>(a: T, b: T, s: seq<T>, t: seq<T>)
    ensures [a] + ([b] + s + t) == [a, b] + (s + t)
  {
  }

  lemma DropAfterUser(question: string, calls: seq<ProposedToolCall>, later: seq<Message>)
    ensures var ms := [User(question), AssistantToolCalls(calls)] + later;
            && FirstCalls(ms) == Some(1)
            && Dropped(ms, 1) == [User(question)] + Retained(later, calls)
  {
    var ms := [User(question), AssistantToolCalls(calls)] + later;
    assert ms[..1] + ms[2..] == [User(question)] + later;
    assert ([User(question)] + later)[1..] == later;
    assert ms[1..][0].AssistantToolCalls?;
  }

  /** Why identifiers must be unique across the turn: when two rounds share one, dropping the first
      takes the other's result with it. */
  lemma SharedIdLosesAnotherRoundsResult(question: string, a: ProposedToolCall, b: ProposedToolCall, x: Message,
                                         y: Message)
    requires a.id == b.id && x.ToolResult? && y.ToolResult? && x.callId == a.id && y.callId == b.id
    ensures var rounds := [Round([a], [x]), Round([b], [y])];
            FirstCalls(Whole(question, rounds)) == Some(1)
              && Dropped(Whole(question, rounds), 1) == [User(question), AssistantToolCalls([b])]
  {
    var rounds := [Round([a], [x]), Round([b], [y])];
    assert rounds[1..] == [Round([b], [y])] && rounds[1..][1..] == [];
    assert Flatten(rounds[1..]) == [AssistantToolCalls([b]), y];
    var later := [x, AssistantToolCalls([b]), y];
    assert Whole(question, rounds) == [User(question), AssistantToolCalls([a])] + later;
    DropAfterUser(question, [a], later);
    assert a in [a];
    assert Answers(x, [a]) && Answers(y, [a]);
    OwnResultsGo([x], [a]);
    OthersStay([AssistantToolCalls([b])], [a]);
    OwnResultsGo([y], [a]);
    RetainedAppends([x], [AssistantToolCalls([b])] + [y], [a]);
    RetainedAppends([AssistantToolCalls([b])], [y], [a]);
    assert later == [x] + ([AssistantToolCalls([b])] + [y]);
  }

  // ---- the longest suffix that fits ----

  predicate SuffixFits(question: string, rounds: seq<Round>, d: nat, instructionChars: nat)
    requires d <= |rounds|
  {
    Fits(Whole(question, rounds[d..]), instructionChars)
  }

  /** Dropping fewer than d rounds is not enough. */
  predicate MustDrop(question: string, rounds: seq<Round>, d: nat, instructionChars: nat)
    requires d <= |rounds|
  {
    forall e: nat | e < d :: !SuffixFits(question, rounds, e, instructionChars)
  }

  /** The user message and the longest suffix of whole rounds that fits. */
  predicate IsLongestFit(question: string, rounds: seq<Round>, instructionChars: nat, ms: seq<Message>) {
    exists d: nat :: d <= |rounds| && ms == Whole(question, rounds[d..])
                     && SuffixFits(question, rounds, d, instructionChars)
                       && MustDrop(question, rounds, d, instructionChars)
  }

  lemma WholeChars(question: string, rounds: seq<Round>)
    ensures |PromptText(Whole(question, rounds))| == |question| + |PromptText(Flatten(rounds))|
  {
    assert Whole(question, rounds)[1..] == Flatten(rounds);
    ConcatenatedPair(question, []);
  }

  lemma SeparateSuffix(rounds: seq<Round>, d: nat)
    requires Separate(rounds) && d <= |rounds|
    ensures Separate(rounds[d..])
  {
  }

  /** Compaction of whole rounds, of which the first d are known to have to go, is optimal: it fails
      exactly when the instruction and the user message alone do not fit, and otherwise keeps the
      longest suffix of all rounds that fits. */
  lemma {:induction false} CompactionKeepsLongestFit(question: string, rounds: seq<Round>, d: nat,
                                                     instructionChars: nat)
    requires Separate(rounds) && d <= |rounds| && MustDrop(question, rounds, d, instructionChars)
    ensures var r := Compacted(Whole(question, rounds[d..]), instructionChars);
            && (r.Ok? <==> instructionChars + |question| <= MAX_PROMPT_CONTEXT_CHARS)
            && (r.Ok? ==> IsLongestFit(question, rounds, instructionChars, r.value))
            && (r.Err? ==> r.error == PromptContext)
    decreases |rounds| - d
  {
    var ms := Whole(question, rounds[d..]);
    WholeChars(question, rounds[d..]);
    if !Fits(ms, instructionChars) {
      if d < |rounds| {
        SeparateSuffix(rounds, d);
        DropsOldestRound(question, rounds[d..]);
        assert rounds[d..][1..] == rounds[d + 1..];
        hide Dropped, FirstCalls, Fits, Whole;
        assert !SuffixFits(question, rounds, d, instructionChars);
        CompactionKeepsLongestFit(question, rounds, d + 1, instructionChars);
      } else {
        assert rounds[d..] == [] && Flatten([]) == [];
        assert ms == [User(question)] && FirstCalls(ms) == None;
      }
    } else {
      assert SuffixFits(question, rounds, d, instructionChars);
    }
  }

  /** What had to go stays gone: later rounds and a longer instruction only make it worse. */
  lemma MustDropPersists(question: string, rounds: seq<Round>, d: nat, instructionChars: nat, more: seq<Round>,
                         laterChars: nat)
    requires d <= |rounds| && instructionChars <= laterChars && MustDrop(question, rounds, d, instructionChars)
    ensures MustDrop(question, rounds + more, d, laterChars)
  {
    forall e: nat | e < d
      ensures !SuffixFits(question, rounds + more, e, laterChars)
    {
      assert !SuffixFits(question, rounds, e, instructionChars);
      assert (rounds + more)[e..] == rounds[e..] + more;
      WholeChars(question, rounds[e..]);
      WholeChars(question, rounds[e..] + more);
      FlattenAppends(rounds[e..], more);
      PromptTextAppends(Flatten(rounds[e..]), Flatten(more));
    }
  }
}
