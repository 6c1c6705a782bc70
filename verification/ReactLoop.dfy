/** The executor's tool-use loop on the Anthropic message format, against an arbitrary
    model and arbitrary tools: conversation shape, tool budget, cost budget, exit code. */
module ReactLoop {

  datatype Block = Text(text: string) | ToolUse(request: Request) | OtherBlock

  datatype Request = Request(id: string, name: string, input: string)

  datatype ToolResult = ToolResult(id: string, content: string, isError: bool)

  datatype Message =
    | UserText(text: string)
    | UserResults(results: seq<ToolResult>)
    | Assistant(blocks: seq<Block>)

  /** What one call to the model comes to. A garbled response is paid for but cannot be parsed. */
  datatype Reply =
    | Response(blocks: seq<Block>, cost: real)
    | Garbled(cost: real, error: string)
    | Unreachable(error: string)
    | Unauthorized
    | HttpError(error: string)
    | OtherError(error: string)

  datatype Autonomy = Manual | Restricted | Supervised | Full

  /** The step's output: a dictionary read from the model's text, of which only emptiness and
      the truth of its `error` entry matter; an error payload; or the default. */
  datatype Output = ModelOutput(isEmpty: bool, hasError: bool) | ErrorOutput(error: string) | CompletedOutput

  const LIMIT_TEXT := "Tool call limit reached. Please provide your final response."
  const UNAUTHORIZED := "Model API rejected credentials (HTTP 401)" + " \U{2014} check the provider API key"
  const RESULT_CAP := 50000

  /** output_exit_code. */
  function ExitCode(o: Output): int {
    match o
    case ModelOutput(_, hasError) => if hasError then 1 else 0
    case ErrorOutput(e) => if e != "" then 1 else 0
    case CompletedOutput => 0
  }

  /** The error payload a failed call ends the loop with. */
  function FailureOutput(r: Reply): (o: Output)
    requires !r.Response?
    ensures o.ErrorOutput?
  {
    match r
    case Garbled(_, e) => ErrorOutput(e)
    case Unreachable(e) => ErrorOutput("Model API not reachable: " + e)
    case Unauthorized => ErrorOutput(UNAUTHORIZED)
    case HttpError(e) => ErrorOutput(e)
    case OtherError(e) => ErrorOutput(e)
  }

  /** A failed call makes the step exit nonzero exactly when its error has a text: an
      exception that prints as the empty string is reported as a success. */
  lemma FailureExits(r: Reply)
    requires !r.Response?
    ensures ExitCode(FailureOutput(r)) != 0 <==> r.Unreachable? || r.Unauthorized? || r.error != ""
  {
    if r.Unreachable? { assert ("Model API not reachable: " + r.error)[0] == 'M'; }
    if r.Unauthorized? { assert UNAUTHORIZED[0] == 'M'; }
  }

  /** An output fails the step exactly when it carries an error that says something. */
  lemma ExitsExactly(o: Output)
    ensures ExitCode(o) == 0 || ExitCode(o) == 1
    ensures ExitCode(o) != 0 <==> (o.ModelOutput? && o.hasError) || (o.ErrorOutput? && o.error != "")
  {
  }

  // ---------------------------------------------------------------- conversations

  function Requests(blocks: seq<Block>): seq<Request> {
    if blocks == [] then []
    else Requests(blocks[..|blocks| - 1]) +
         if blocks[|blocks| - 1].ToolUse? then [blocks[|blocks| - 1].request] else []
  }

  function AllRequests(ms: seq<Message>): seq<Request> {
    if ms == [] then []
    else AllRequests(ms[..|ms| - 1]) +
         if ms[|ms| - 1].Assistant? then Requests(ms[|ms| - 1].blocks) else []
  }

  /** The limits and policies of one step, and how its tools answer their n-th call. */
  datatype Policy = Policy(maxToolCalls: int, autonomy: Autonomy, writeTools: set<string>,
    tool: (nat, Request) -> string) {

    predicate Blocked(name: string) {
      autonomy == Manual || (autonomy == Restricted && name in writeTools)
    }

    function BlockedText(name: string): string {
      if autonomy == Manual then
        "BLOCKED: Manual autonomy \U{2014} tool '" + name + "' not allowed. Provide analysis without tools."
      else
        "BLOCKED: Restricted autonomy \U{2014} write tool '" + name + "' not allowed."
    }

    /** The reply to the n-th tool request of the run: over the limit, blocked, or executed. */
    function Answer(n: nat, r: Request): ToolResult {
      if n > maxToolCalls then ToolResult(r.id, LIMIT_TEXT, true)
      else if Blocked(r.name) then ToolResult(r.id, BlockedText(r.name), true)
      else ToolResult(r.id, Capped(tool(n, r)), false)
    }

    function Answers(base: nat, rs: seq<Request>): (as_: seq<ToolResult>)
      ensures |as_| == |rs|
    {
      if rs == [] then []
      else Answers(base, rs[..|rs| - 1]) + [Answer(base + |rs|, rs[|rs| - 1])]
    }

    /** The calls among rs that reach a tool, numbered from base + 1. */
    function Executed(base: nat, rs: seq<Request>): seq<(nat, Request)> {
      if rs == [] then []
      else
        var n, r := base + |rs|, rs[|rs| - 1];
        Executed(base, rs[..|rs| - 1]) + if n <= maxToolCalls && !Blocked(r.name) then [(n, r)] else []
    }

    /** An assistant turn at i: a last word, or answered at once, request by request. */
    ghost predicate Answered(ms: seq<Message>, i: int)
      requires 0 <= i < |ms| && ms[i].Assistant?
    {
      var rs := Requests(ms[i].blocks);
      if rs == [] then i == |ms| - 1
      else i + 1 < |ms| && ms[i + 1] == UserResults(Answers(|AllRequests(ms[..i])|, rs))
    }

    ghost predicate WellFormed(prompt: string, ms: seq<Message>) {
      && ms != [] && ms[0] == UserText(prompt)
      && (forall i :: 0 <= i < |ms| ==> (ms[i].Assistant? <==> i % 2 == 1))
      && forall i :: 0 <= i < |ms| && ms[i].Assistant? ==> Answered(ms, i)
    }
  }

  /** The last message is the user's, so the model is to speak. */
  predicate UserTurn(ms: seq<Message>) {
    ms != [] && !ms[|ms| - 1].Assistant?
  }

  function JoinLines(parts: seq<string>): string {
    if parts == [] then "" else if |parts| == 1 then parts[0] else parts[0] + "\n" + JoinLines(parts[1..])
  }

  /** The text blocks of a response. */
  function Texts(blocks: seq<Block>): seq<string> {
    if blocks == [] then []
    else Texts(blocks[..|blocks| - 1]) + if blocks[|blocks| - 1].Text? then [blocks[|blocks| - 1].text] else []
  }

  function Capped(s: string): string {
    if |s| <= RESULT_CAP then s else s[..RESULT_CAP]
  }

  lemma {:induction false} AnswersInOrder(p: Policy, base: nat, rs: seq<Request>, j: nat)
    requires j < |rs|
    ensures p.Answers(base, rs)[j] == p.Answer(base + j + 1, rs[j])
  {
    if j < |rs| - 1 { AnswersInOrder(p, base, rs[..|rs| - 1], j); }
  }

  // ---------------------------------------------------------------- block by block

  function ToolUses(blocks: seq<Block>): nat {
    if blocks == [] then 0
    else ToolUses(blocks[..|blocks| - 1]) + if blocks[|blocks| - 1].ToolUse? then 1 else 0
  }

  /** The requests of a turn are its tool_use blocks, all of them, in their order. */
  lemma {:induction false} RequestsByPlace(blocks: seq<Block>)
    ensures |Requests(blocks)| == ToolUses(blocks)
    ensures forall i :: 0 <= i < |blocks| && blocks[i].ToolUse? ==>
      ToolUses(blocks[..i]) < ToolUses(blocks) && Requests(blocks)[ToolUses(blocks[..i])] == blocks[i].request
  {
    if blocks != [] {
      var init := blocks[..|blocks| - 1];
      RequestsByPlace(init);
      forall i | 0 <= i < |blocks| && blocks[i].ToolUse?
        ensures ToolUses(blocks[..i]) < ToolUses(blocks) && Requests(blocks)[ToolUses(blocks[..i])] == blocks[i].request
      {
        if i < |init| { assert blocks[..i] == init[..i]; }
      }
    }
  }

  function TextBlocks(blocks: seq<Block>): nat {
    if blocks == [] then 0
    else TextBlocks(blocks[..|blocks| - 1]) + if blocks[|blocks| - 1].Text? then 1 else 0
  }

  /** So are its texts. */
  lemma {:induction false} TextsByPlace(blocks: seq<Block>)
    ensures |Texts(blocks)| == TextBlocks(blocks)
    ensures forall i :: 0 <= i < |blocks| && blocks[i].Text? ==>
      TextBlocks(blocks[..i]) < TextBlocks(blocks) && Texts(blocks)[TextBlocks(blocks[..i])] == blocks[i].text
  {
    if blocks != [] {
      var init := blocks[..|blocks| - 1];
      TextsByPlace(init);
      forall i | 0 <= i < |blocks| && blocks[i].Text?
        ensures TextBlocks(blocks[..i]) < TextBlocks(blocks) && Texts(blocks)[TextBlocks(blocks[..i])] == blocks[i].text
      {
        if i < |init| { assert blocks[..i] == init[..i]; }
      }
    }
  }

  /** Joining puts a line break between any two neighbours. */
  lemma {:induction false} JoinAppends(parts: seq<string>, last: string)
    ensures JoinLines(parts + [last]) == if parts == [] then last else JoinLines(parts) + "\n" + last
  {
    if |parts| > 0 {
      JoinAppends(parts[1..], last);
      assert (parts + [last])[1..] == parts[1..] + [last];
    }
  }

  /** A call reaches a tool: it is within the limit, and the autonomy level lets it through. */
  predicate Permitted(p: Policy, n: nat, r: Request) {
    && n <= p.maxToolCalls
    && (p.autonomy == Supervised || p.autonomy == Full || (p.autonomy == Restricted && r.name !in p.writeTools))
  }

  /** The answer to the j-th request: what its tool says, cut at 50000 characters, if the call
      is permitted, and otherwise an error; under the request's id. */
  lemma AnswersExactly(p: Policy, base: nat, rs: seq<Request>, j: nat)
    requires j < |rs|
    ensures var n, a, r := base + j + 1, p.Answers(base, rs)[j], rs[j];
            && a.id == r.id
            && (a.isError <==> !Permitted(p, n, r))
            && (n > p.maxToolCalls ==> a.content == "Tool call limit reached. Please provide your final response.")
            && (n <= p.maxToolCalls && !Permitted(p, n, r) ==>
                 a.content == if p.autonomy == Manual then
                   "BLOCKED: Manual autonomy \U{2014} tool '" + r.name
                   + "' not allowed. Provide analysis without tools."
                 else "BLOCKED: Restricted autonomy \U{2014} write tool '" + r.name + "' not allowed.")
            && (Permitted(p, n, r) ==>
                 a.content == if |p.tool(n, r)| <= 50000 then p.tool(n, r) else p.tool(n, r)[..50000])
  {
    AnswersInOrder(p, base, rs, j);
  }

  /** The calls that reach a tool are exactly the permitted ones. */
  lemma {:induction false} ExecutedExactly(p: Policy, base: nat, rs: seq<Request>, n: nat, r: Request)
    ensures (n, r) in p.Executed(base, rs) <==> base < n <= base + |rs| && rs[n - base - 1] == r && Permitted(p, n, r)
  {
    if rs != [] { ExecutedExactly(p, base, rs[..|rs| - 1], n, r); }
  }

  /** Roles alternate, and every tool_use block of an assistant message is answered under its id
      by the next message, in the place the block has among the tool_use blocks, with no other
      results; only the last message may be an assistant's, and then it uses no tool. */
  lemma RequestsAnsweredOnce(p: Policy, prompt: string, ms: seq<Message>, i: nat)
    requires p.WellFormed(prompt, ms) && i < |ms| && ms[i].Assistant?
    ensures i % 2 == 1
    ensures i == |ms| - 1 ==> ToolUses(ms[i].blocks) == 0
    ensures i < |ms| - 1 ==> ms[i + 1].UserResults? && |ms[i + 1].results| == ToolUses(ms[i].blocks)
    ensures i < |ms| - 1 ==> forall j :: 0 <= j < |ms[i].blocks| && ms[i].blocks[j].ToolUse? ==>
      var place := ToolUses(ms[i].blocks[..j]);
      place < |ms[i + 1].results| && ms[i + 1].results[place].id == ms[i].blocks[j].request.id
  {
    assert p.Answered(ms, i);
    var rs, base := Requests(ms[i].blocks), |AllRequests(ms[..i])|;
    RequestsByPlace(ms[i].blocks);
    hide Requests, AllRequests, Policy.Answers, Policy.Answer;
    forall j | 0 <= j < |rs| ensures p.Answers(base, rs)[j].id == rs[j].id {
      AnswersExactly(p, base, rs, j);
    }
  }

  /** No more than the limit is executed, nothing blocked is, and each call once. */
  lemma {:induction false} ExecutedWithinLimit(p: Policy, base: nat, rs: seq<Request>)
    ensures |p.Executed(base, rs)| <= |rs|
    ensures p.Executed(base, rs) == [] || |p.Executed(base, rs)| <= p.maxToolCalls - base
    ensures forall e :: e in p.Executed(base, rs) ==>
      base < e.0 <= base + |rs| && e.0 <= p.maxToolCalls && !p.Blocked(e.1.name)
    ensures forall i, j :: 0 <= i < j < |p.Executed(base, rs)| ==> p.Executed(base, rs)[i].0 < p.Executed(base, rs)[j].0
  {
    if rs != [] { ExecutedWithinLimit(p, base, rs[..|rs| - 1]); }
  }

  lemma {:induction false} ExecutedConcat(p: Policy, base: nat, a: seq<Request>, b: seq<Request>)
    ensures p.Executed(base, a + b) == p.Executed(base, a) + p.Executed(base + |a|, b)
  {
    if b == [] {
      assert a + b == a;
    } else {
      ExecutedConcat(p, base, a, b[..|b| - 1]);
      assert (a + b)[..|a + b| - 1] == a + b[..|b| - 1];
    }
  }

  lemma AnsweredStays(p: Policy, ms: seq<Message>, more: seq<Message>, i: nat)
    requires i < |ms| - 1 && ms[i].Assistant? && p.Answered(ms, i) && ms <= more
    ensures p.Answered(more, i)
  {
    hide Requests, AllRequests, Policy.Answers;
    assert more[..i] == ms[..i];
  }

  /** A last word closes a well-formed conversation. */
  lemma LastWordKeeps(p: Policy, prompt: string, ms: seq<Message>, blocks: seq<Block>)
    requires p.WellFormed(prompt, ms) && UserTurn(ms) && Requests(blocks) == []
    ensures p.WellFormed(prompt, ms + [Assistant(blocks)]) && AllRequests(ms + [Assistant(blocks)]) == AllRequests(ms)
  {
    var one := ms + [Assistant(blocks)];
    assert one[..|one| - 1] == ms && p.Answered(one, |ms|);
    hide Requests, AllRequests, Policy.Answered, Policy.Answers;
    forall i | 0 <= i < |one| && one[i].Assistant? ensures p.Answered(one, i) {
      if i < |ms| {
        assert p.Answered(ms, i) && i < |ms| - 1;
        AnsweredStays(p, ms, one, i);
      }
    }
  }

  lemma RoundRequests(ms: seq<Message>, blocks: seq<Block>, results: seq<ToolResult>)
    ensures AllRequests(ms + [Assistant(blocks)] + [UserResults(results)]) == AllRequests(ms) + Requests(blocks)
  {
    hide Requests;
    var one := ms + [Assistant(blocks)];
    var two := one + [UserResults(results)];
    assert one[..|one| - 1] == ms && two[..|two| - 1] == one;
    assert AllRequests(one) + [] == AllRequests(one);
  }

  lemma AnsweredNow(p: Policy, ms: seq<Message>, blocks: seq<Block>, results: seq<ToolResult>)
    requires Requests(blocks) != [] && results == p.Answers(|AllRequests(ms)|, Requests(blocks))
    ensures p.Answered(ms + [Assistant(blocks)] + [UserResults(results)], |ms|)
  {
    hide Requests, AllRequests, Policy.Answers;
    assert (ms + [Assistant(blocks)] + [UserResults(results)])[..|ms|] == ms;
  }

  /** A turn with tool requests and its answers keep a conversation well formed and hand it back to the user. */
  lemma RoundKeeps(p: Policy, prompt: string, ms: seq<Message>, blocks: seq<Block>, results: seq<ToolResult>)
    requires p.WellFormed(prompt, ms) && UserTurn(ms) && Requests(blocks) != []
    requires results == p.Answers(|AllRequests(ms)|, Requests(blocks))
    ensures var more := ms + [Assistant(blocks)] + [UserResults(results)];
            p.WellFormed(prompt, more) && UserTurn(more) && AllRequests(more) == AllRequests(ms) + Requests(blocks)
  {
    hide Requests, AllRequests, Policy.Answers, Policy.Answered;
    var two := ms + [Assistant(blocks)] + [UserResults(results)];
    RoundRequests(ms, blocks, results);
    AnsweredNow(p, ms, blocks, results);
    assert ms <= two && |two| == |ms| + 2;
    forall i | 0 <= i < |two| && two[i].Assistant? ensures p.Answered(two, i) {
      if i < |ms| {
        assert two[i] == ms[i] && p.Answered(ms, i);
        AnsweredStays(p, ms, two, i);
      } else {
        assert i == |ms|;
      }
    }
  }

  lemma FreshConversation(p: Policy, prompt: string)
    ensures p.WellFormed(prompt, [UserText(prompt)]) && UserTurn([UserText(prompt)])
    ensures AllRequests([UserText(prompt)]) == [] && p.Executed(0, []) == []
  {
    assert [UserText(prompt)][..0] == [];
  }

  // ---------------------------------------------------------------- the loop

  class Executor {
    const p: Policy
    const costLimit: real
    /** wrap_model_text, by what the rest of the program sees of its result. */
    const wrap: string -> Output
    var totalCost: real
    var messages: seq<Message>

    constructor (p: Policy, costLimit: real, wrap: string -> Output)
      ensures this.p == p && this.costLimit == costLimit && this.wrap == wrap && totalCost == 0.0 && messages == []
    {
      this.p, this.costLimit, this.wrap := p, costLimit, wrap;
      totalCost, messages := 0.0, [];
    }

    /** A positive limit is not exceeded. */
    predicate WithinCost(cost: real) { costLimit <= 0.0 || cost <= costLimit }

    /** Returns false where track_cost raises. */
    method TrackCost(cost: real) returns (ok: bool)
      modifies this`totalCost
      ensures totalCost == old(totalCost) + cost && (ok <==> WithinCost(totalCost))
      ensures !ok <==> costLimit > 0.0 && totalCost > costLimit
    {
      totalCost := totalCost + cost;
      ok := !(costLimit > 0.0 && totalCost > costLimit);
    }

    /** Append the assistant turn; its tool requests, or else its text. */
    method ParseResponse(blocks: seq<Block>) returns (requests: seq<Request>, text: string)
      modifies this`messages
      ensures messages == old(messages) + [Assistant(blocks)] && requests == Requests(blocks)
      ensures text == JoinLines(Texts(blocks))
    {
      requests := [];
      var parts: seq<string> := [];
      var content: seq<Block> := [];
      for i := 0 to |blocks|
        invariant requests == Requests(blocks[..i]) && parts == Texts(blocks[..i])
        invariant content == blocks[..i] && messages == old(messages)
      {
        assert blocks[..i + 1][..i] == blocks[..i];
        content := content + [blocks[i]];
        match blocks[i] {
          case Text(t) => parts := parts + [t];
          case ToolUse(r) => requests := requests + [r];
          case OtherBlock =>
        }
      }
      assert blocks[..|blocks|] == blocks;
      messages := messages + [Assistant(content)];
      text := JoinLines(parts);
    }

    /** The tool requests of one turn, counted on from base. */
    method AnswerRequests(base: nat, requests: seq<Request>, executed0: seq<(nat, Request)>)
      returns (count: nat, results: seq<ToolResult>, executed: seq<(nat, Request)>)
      ensures count == base + |requests| && results == p.Answers(base, requests)
      ensures executed == executed0 + p.Executed(base, requests)
    {
      count, results, executed := base, [], executed0;
      for i := 0 to |requests|
        invariant count == base + i && results == p.Answers(base, requests[..i])
        invariant executed == executed0 + p.Executed(base, requests[..i])
      {
        assert requests[..i + 1][..i] == requests[..i];
        var req := requests[i];
        count := count + 1;
        if count > p.maxToolCalls {
          results := results + [ToolResult(req.id, LIMIT_TEXT, true)];
          continue;
        }
        if p.Blocked(req.name) {
          results := results + [ToolResult(req.id, p.BlockedText(req.name), true)];
          continue;
        }
        var result := p.tool(count, req);
        executed := executed + [(count, req)];
        results := results + [ToolResult(req.id, Capped(result), false)];
      }
      assert requests[..|requests|] == requests;
    }

    /** The reply was paid for and the money is gone. */
    predicate Overspent(reply: Reply)
      reads this`totalCost
    {
      (reply.Response? || reply.Garbled?) && !WithinCost(totalCost)
    }

    /** Nothing is asked of the model after such a reply. */
    predicate Conclusive(reply: Reply)
      reads this`totalCost
    {
      Overspent(reply) || !reply.Response? || ToolUses(reply.blocks) == 0
    }

    /** The loop. `sent` are the conversations submitted to the model and `costs` the money
        spent before each; `executed` are the tool calls that reached a tool. */
    method Run(prompt: string, model: (nat, seq<Message>) -> Reply)
      returns (output: Output, sent: seq<seq<Message>>, costs: seq<real>, executed: seq<(nat, Request)>, lastCost: real)
      modifies this
      ensures p.WellFormed(prompt, messages)
      ensures forall ms :: ms in sent ==> p.WellFormed(prompt, ms) && UserTurn(ms)
      ensures |sent| == |costs| && (sent == [] || |sent| <= p.maxToolCalls + 1)
      ensures executed == p.Executed(0, AllRequests(messages)) && (executed == [] || |executed| <= p.maxToolCalls)
      ensures sent == [] ==> p.maxToolCalls + 1 <= 0 && output == CompletedOutput
      ensures sent != [] ==>
        var last := model(|sent| - 1, sent[|sent| - 1]);
        if Overspent(last) then output == ErrorOutput("Cost limit exceeded")
        else if !last.Response? then output == FailureOutput(last)
        else if ToolUses(last.blocks) > 0 then output == CompletedOutput && |sent| == p.maxToolCalls + 1
        else
          var said := wrap(JoinLines(Texts(last.blocks)));
          output == if said.ModelOutput? && said.isEmpty then CompletedOutput else said
      ensures costLimit > 0.0 && old(totalCost) <= costLimit ==>
        && (forall c :: c in costs ==> c <= costLimit)
        && (totalCost > costLimit ==> totalCost - lastCost <= costLimit && ExitCode(output) != 0)
    {
      hide Policy.WellFormed, Policy.Executed, Policy.Answers, Policy.Blocked, Requests, AllRequests, Texts,
        JoinLines, FailureOutput, UserTurn, ToolUses;
      FreshConversation(p, prompt);
      messages := [UserText(prompt)];
      sent, costs, executed, lastCost := [], [], [], 0.0;
      var final: Output := CompletedOutput;
      var count := 0;
      var iteration := 0;
      while iteration < p.maxToolCalls + 1
        invariant iteration == |sent| == |costs| && (sent == [] || |sent| <= p.maxToolCalls + 1)
        invariant sent != [] ==> !Conclusive(model(|sent| - 1, sent[|sent| - 1]))
        invariant p.WellFormed(prompt, messages) && UserTurn(messages)
        invariant forall ms :: ms in sent ==> p.WellFormed(prompt, ms) && UserTurn(ms)
        invariant count == |AllRequests(messages)| && executed == p.Executed(0, AllRequests(messages))
        invariant WithinCost(old(totalCost)) ==> WithinCost(totalCost) && forall c :: c in costs ==> WithinCost(c)
        invariant final == CompletedOutput
      {
        var reply := model(iteration, messages);
        sent, costs := sent + [messages], costs + [totalCost];
        iteration := iteration + 1;
        if reply.Response? || reply.Garbled? {
          lastCost := reply.cost;
          var ok := TrackCost(reply.cost);
          if !ok {
            final := ErrorOutput("Cost limit exceeded");
            break;
          }
        }
        if !reply.Response? {
          final := FailureOutput(reply);
          break;
        }
        ExecutedConcat(p, 0, AllRequests(messages), Requests(reply.blocks));
        RequestsByPlace(reply.blocks);
        if Requests(reply.blocks) == [] {
          LastWordKeeps(p, prompt, messages, reply.blocks);
        } else {
          RoundKeeps(p, prompt, messages, reply.blocks, p.Answers(|AllRequests(messages)|, Requests(reply.blocks)));
        }
        var requests, text := ParseResponse(reply.blocks);
        if requests == [] {
          final := wrap(text);
          break;
        }
        var results;
        count, results, executed := AnswerRequests(count, requests, executed);
        messages := messages + [UserResults(results)];
      }
      ExecutedWithinLimit(p, 0, AllRequests(messages));
      output := if final.ModelOutput? && final.isEmpty then CompletedOutput else final;
    }
  }
}
