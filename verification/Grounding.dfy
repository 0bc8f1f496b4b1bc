/** Grounded AI completion: two upstream calls under one completion-token ceiling, with validated
    evidence. Upstream bodies are arbitrary JSON; every malformed shape has its outcome. */
module Grounding {
  import opened Common
  import opened Text

  datatype Json = Null | Bool(b: bool) | Int(n: int) | Float(r: real) | Str(s: string) | Arr(items: seq<Json>)
    | Obj(fields: map<string, Json>)

  /** dict.get of a dict; the callers know that it is one. */
  function Get(j: Json, key: string): Json {
    if j.Obj? && key in j.fields then j.fields[key] else Null
  }

  predicate Truthy(j: Json) {
    match j
    case Null => false
    case Bool(b) => b
    case Int(n) => n != 0
    case Float(r) => r != 0.0
    case Str(s) => s != ""
    case Arr(items) => items != []
    case Obj(fields) => fields != map[]
  }

  /** What a set of JSON scalars distinguishes: 1, 1.0 and true are one element. */
  datatype Hashed = HashedNull | HashedNumber(r: real) | HashedText(s: string)

  /** None stands for the TypeError of hashing a list or a dict. */
  function Hash(j: Json): Option<Hashed> {
    match j
    case Null => Some(HashedNull)
    case Bool(b) => Some(HashedNumber(if b then 1.0 else 0.0))
    case Int(n) => Some(HashedNumber(n as real))
    case Float(r) => Some(HashedNumber(r))
    case Str(s) => Some(HashedText(s))
    case Arr(_) => None
    case Obj(_) => None
  }

  // ---------------------------------------------------------------- usage

  datatype AIUsage = AIUsage(prompt: Option<int>, completion: Option<int>, total: Option<int>)

  /** _optional_non_negative_int: a boolean is an int in Python. */
  function OptionalNat(j: Json): Option<int> {
    match j
    case Bool(b) => Some(if b then 1 else 0)
    case Int(n) => if n >= 0 then Some(n) else None
    case _ => None
  }

  function NormalizeUsage(j: Json): Option<AIUsage> {
    if !j.Obj? then None
    else Some(AIUsage(OptionalNat(Get(j, "prompt_tokens")), OptionalNat(Get(j, "completion_tokens")),
      OptionalNat(Get(j, "total_tokens"))))
  }

  function AddOptional(a: Option<int>, b: Option<int>): Option<int> {
    if a.Some? && b.Some? then Some(a.value + b.value) else None
  }

  function SumUsage(a: Option<AIUsage>, b: Option<AIUsage>): Option<AIUsage> {
    if a.None? then b
    else if b.None? then a
    else Some(AIUsage(AddOptional(a.value.prompt, b.value.prompt), AddOptional(a.value.completion, b.value.completion),
                      AddOptional(a.value.total, b.value.total)))
  }

  function Completion(u: Option<AIUsage>): Option<int> {
    if u.None? then None else u.value.completion
  }

  // ---------------------------------------------------------------- requests and replies

  datatype Message = Message(role: string, content: string)

  datatype Request = Request(messages: seq<Message>, maxTokens: Option<int>, grounding: bool)

  datatype Target = Target(model: string, provider: Option<string>)

  datatype Payload = Payload(model: string, messages: seq<Json>, provider: Option<string>, maxTokens: Option<int>,
    webSearch: bool)

  type Body = map<string, Json>

  datatype Reply = Reply(body: Body, selectedProvider: Option<string>) | AuthFault | ClientFault | Unreachable

  datatype Reason = NoGrounding | BadToolCall | BadEvidence | NoEvidence | NoSources | NoGroundingUsage | BudgetConsumed
    | BadEnvelope | NonText | NoCompletionUsage | OverBudget

  /** Unhandled: an exception the adapter does not translate (an unhashable id, a blank source). */
  datatype AIError = UpstreamAuth | UpstreamRequest | UpstreamUnavailable | UpstreamResponse(reason: Reason) | Unhandled

  datatype AIResponse = AIResponse(content: string, provider: Option<string>, model: string, usage: Option<AIUsage>,
    fallbackUsed: bool, grounded: bool, sources: seq<string>)

  function Field(body: Body, key: string): Json { if key in body then body[key] else Null }

  function MessageJson(m: Message): Json { Obj(map["role" := Str(m.role), "content" := Str(m.content)]) }

  function MessagesJson(ms: seq<Message>): (r: seq<Json>)
    ensures |r| == |ms| && forall i | 0 <= i < |ms| :: r[i] == MessageJson(ms[i])
  {
    seq(|ms|, i requires 0 <= i < |ms| => MessageJson(ms[i]))
  }

  function FaultError(r: Reply): AIError
    requires !r.Reply?
  {
    match r
    case AuthFault => UpstreamAuth
    case ClientFault => UpstreamRequest
    case Unreachable => UpstreamUnavailable
  }

  /** body["choices"][0]["message"]; None for every exception the adapter catches. */
  function FirstMessage(body: Body): Option<Json> {
    var choices := Field(body, "choices");
    if choices.Arr? && choices.items != [] && choices.items[0].Obj? && "message" in choices.items[0].fields
    then Some(choices.items[0].fields["message"]) else None
  }

  // ---------------------------------------------------------------- evidence

  predicate SearchCall(call: Json) {
    call.Obj? && Get(call, "function").Obj? && Get(Get(call, "function"), "name") == Str("omniroute_web_search")
  }

  /** The ids of the web-search calls; None if one of them cannot be hashed. */
  function CallIds(calls: seq<Json>): Option<set<Hashed>> {
    if calls == [] then Some({})
    else
      var ids := CallIds(calls[..|calls| - 1]);
      var call := calls[|calls| - 1];
      if ids.None? || !SearchCall(call) then ids
      else if Hash(Get(call, "id")).None? then None
      else Some(ids.value + {Hash(Get(call, "id")).value})
  }

  predicate HasUrl(item: Json) { item.Obj? && Get(item, "url").Str? && Get(item, "url").s != "" }

  function Urls(items: seq<Json>): seq<string> {
    if items == [] then []
    else Urls(items[..|items| - 1]) + if HasUrl(items[|items| - 1]) then [Get(items[|items| - 1], "url").s] else []
  }

  /** One tool result: its evidence items, or the refusal. `loads` is json.loads. */
  function Evidence(result: Json, ids: set<Hashed>, loads: string -> Option<Json>): Result<seq<Json>, AIError> {
    if !result.Obj? then Err(UpstreamResponse(BadEvidence))
    else if Hash(Get(result, "tool_call_id")).None? then Err(Unhandled)
    else if Hash(Get(result, "tool_call_id")).value !in ids || !Get(result, "output").Str?
      then Err(UpstreamResponse(BadEvidence))
    else
      var parsed := loads(Get(result, "output").s);
      if parsed.None? || !parsed.value.Obj? || "results" !in parsed.value.fields then Err(UpstreamResponse(BadEvidence))
      else
        var items := parsed.value.fields["results"];
        if !Truthy(Get(parsed.value, "success")) || !items.Arr? || items.items == []
          then Err(UpstreamResponse(NoEvidence))
        else Ok(items.items)
  }

  function ToolMessage(result: Json): Json {
    Obj(map["role" := Str("tool"), "tool_call_id" := Get(result, "tool_call_id"), "content" := Get(result, "output")])
  }

  datatype Collected = Collected(sources: seq<string>, messages: seq<Json>)

  /** All tool results in order, up to the first refusal. */
  function Collect(results: seq<Json>, ids: set<Hashed>, loads: string -> Option<Json>): Result<Collected, AIError> {
    if results == [] then Ok(Collected([], []))
    else match Collect(results[..|results| - 1], ids, loads)
      case Err(e) => Err(e)
      case Ok(c) =>
        match Evidence(results[|results| - 1], ids, loads)
        case Err(e) => Err(e)
        case Ok(items) => Ok(Collected(c.sources + Urls(items), c.messages + [ToolMessage(results[|results| - 1])]))
  }

  /** tuple(dict.fromkeys(s)) */
  function Dedup(s: seq<string>): seq<string> {
    if s == [] then []
    else
      var d := Dedup(s[..|s| - 1]);
      if s[|s| - 1] in d then d else d + [s[|s| - 1]]
  }

  function Followup(request: Request, target: Target, body: Body, usage: Option<AIUsage>,
                    loads: string -> Option<Json>): Result<(Payload, seq<string>), AIError> {
    var assistant := FirstMessage(body);
    if assistant.None? || !assistant.value.Obj? || "tool_calls" !in assistant.value.fields || "tool_results" !in body
    then Err(UpstreamResponse(NoGrounding))
    else
      var calls, results := Get(assistant.value, "tool_calls"), body["tool_results"];
      if !calls.Arr? || calls.items == [] || !results.Arr? then Err(UpstreamResponse(NoGrounding))
      else
        var ids := CallIds(calls.items);
        if ids.None? then Err(Unhandled)
        else if HashedNull in ids.value || ids.value == {} then Err(UpstreamResponse(BadToolCall))
        else match Collect(results.items, ids.value, loads)
          case Err(e) => Err(e)
          case Ok(c) =>
            if c.sources == [] then Err(UpstreamResponse(NoSources))
            else if request.maxTokens.Some? && Completion(usage).None? then Err(UpstreamResponse(NoGroundingUsage))
            else if request.maxTokens.Some? && request.maxTokens.value - Completion(usage).value < 1
              then Err(UpstreamResponse(BudgetConsumed))
            else
              var remaining := if request.maxTokens.None? then None
                else Some(request.maxTokens.value - Completion(usage).value);
              var asked := Obj(map["role" := Str("assistant"), "content" := Get(assistant.value, "content"),
                "tool_calls" := calls]);
              Ok((Payload(target.model, MessagesJson(request.messages) + [asked] + c.messages, target.provider,
                remaining, false),
                  Dedup(c.sources)))
  }

  // ---------------------------------------------------------------- the call

  function OptionalString(j: Json): Option<string> {
    if j.Str? && j.s != "" then Some(j.s) else None
  }

  function OrElse(a: Option<string>, b: Option<string>): Option<string> { if a.Some? then a else b }

  function Verify(request: Request, usage: Option<AIUsage>): Option<Reason> {
    if request.maxTokens.None? then None
    else if Completion(usage).None? then Some(NoCompletionUsage)
    else if Completion(usage).value > request.maxTokens.value then Some(OverBudget)
    else None
  }

  /** From the last reply to the response. */
  function Respond(request: Request, target: Target, reply: Reply, first: Option<AIUsage>,
                   sources: seq<string>): Result<AIResponse, AIError>
    requires reply.Reply?
  {
    var message := FirstMessage(reply.body);
    if message.None? || !message.value.Obj? || "content" !in message.value.fields
      then Err(UpstreamResponse(BadEnvelope))
    else if !Get(message.value, "content").Str? then Err(UpstreamResponse(NonText))
    else
      var usage := SumUsage(first, NormalizeUsage(Field(reply.body, "usage")));
      if Verify(request, usage).Some? then Err(UpstreamResponse(Verify(request, usage).value))
      else if exists i :: 0 <= i < |sources| && IsBlank(sources[i]) then Err(Unhandled)
      else
        var selected := match reply.selectedProvider case None => None case Some(s) => OptionalString(Str(s));
        Ok(AIResponse(Get(message.value, "content").s,
                      OrElse(OrElse(selected, OptionalString(Field(reply.body, "provider"))), target.provider),
                      match OptionalString(Field(reply.body, "model")) case Some(m) => m case None => target.model,
                      usage, Truthy(Field(reply.body, "fallback_used")), request.grounding, sources))
  }

  function FirstPayload(request: Request, target: Target): Payload {
    Payload(target.model, MessagesJson(request.messages), target.provider, request.maxTokens, request.grounding)
  }

  /** The outcome and everything sent, for an upstream that answers each call as it likes, knowing all
      that was sent so far. */
  function Complete(request: Request, target: Target, loads: string -> Option<Json>,
                    answer: seq<Payload> -> Reply): (Result<AIResponse, AIError>, seq<Payload>) {
    var p1 := FirstPayload(request, target);
    var r1 := answer([p1]);
    if !r1.Reply? then (Err(FaultError(r1)), [p1])
    else if !request.grounding then (Respond(request, target, r1, None, []), [p1])
    else
      var first := NormalizeUsage(Field(r1.body, "usage"));
      match Followup(request, target, r1.body, first, loads)
      case Err(e) => (Err(e), [p1])
      case Ok((p2, sources)) =>
        var r2 := answer([p1, p2]);
        if !r2.Reply? then (Err(FaultError(r2)), [p1, p2])
        else (Respond(request, target, r2, first, sources), [p1, p2])
  }

  class Client {
    const answer: seq<Payload> -> Reply
    var sent: seq<Payload>

    constructor (answer: seq<Payload> -> Reply)
      ensures this.answer == answer && sent == []
    {
      this.answer, sent := answer, [];
    }

    method ChatCompletions(payload: Payload) returns (reply: Reply)
      modifies this
      ensures sent == old(sent) + [payload] && reply == answer(sent)
    {
      sent := sent + [payload];
      reply := answer(sent);
    }
  }

  lemma {:induction false} FirstRefusalStands(results: seq<Json>, i: nat, ids: set<Hashed>,
                                              loads: string -> Option<Json>)
    requires i <= |results| && Collect(results[..i], ids, loads).Err?
    ensures Collect(results, ids, loads) == Collect(results[..i], ids, loads)
    decreases |results|
  {
    if i < |results| {
      assert results[..|results| - 1][..i] == results[..i];
      FirstRefusalStands(results[..|results| - 1], i, ids, loads);
    } else {
      assert results[..i] == results;
    }
  }

  /** The loop over the tool results. */
  method CollectEvidence(results: seq<Json>, ids: set<Hashed>, loads: string -> Option<Json>)
    returns (r: Result<Collected, AIError>)
    ensures r == Collect(results, ids, loads)
  {
    var sources: seq<string>, messages: seq<Json> := [], [];
    for k := 0 to |results|
      invariant Collect(results[..k], ids, loads) == Ok(Collected(sources, messages))
    {
      assert results[..k + 1][..k] == results[..k] && results[..k + 1][k] == results[k];
      var evidence := Evidence(results[k], ids, loads);
      if evidence.Err? {
        FirstRefusalStands(results, k + 1, ids, loads);
        return Err(evidence.error);
      }
      var items := evidence.value;
      ghost var before := sources;
      for m := 0 to |items|
        invariant sources == before + Urls(items[..m])
      {
        assert items[..m + 1][..m] == items[..m] && items[..m + 1][m] == items[m];
        if HasUrl(items[m]) {
          sources := sources + [Get(items[m], "url").s];
        }
      }
      assert items[..|items|] == items;
      messages := messages + [ToolMessage(results[k])];
    }
    assert results[..|results|] == results;
    r := Ok(Collected(sources, messages));
  }

  method GroundedFollowup(request: Request, target: Target, body: Body, usage: Option<AIUsage>,
                          loads: string -> Option<Json>)
    returns (r: Result<(Payload, seq<string>), AIError>)
    ensures r == Followup(request, target, body, usage, loads)
  {
    hide MessagesJson, Dedup, Collect, CallIds, FirstMessage, Get;
    var message := FirstMessage(body);
    if message.None? || !message.value.Obj? || "tool_calls" !in message.value.fields || "tool_results" !in body {
      return Err(UpstreamResponse(NoGrounding));
    }
    var assistant := message.value;
    var calls, results := Get(assistant, "tool_calls"), body["tool_results"];
    if !calls.Arr? || calls.items == [] || !results.Arr? {
      return Err(UpstreamResponse(NoGrounding));
    }
    var ids := CallIds(calls.items);
    if ids.None? {
      return Err(Unhandled);
    }
    if HashedNull in ids.value || ids.value == {} {
      return Err(UpstreamResponse(BadToolCall));
    }
    var collected := CollectEvidence(results.items, ids.value, loads);
    if collected.Err? {
      return Err(collected.error);
    }
    if collected.value.sources == [] {
      return Err(UpstreamResponse(NoSources));
    }
    var remaining: Option<int> := None;
    if request.maxTokens.Some? {
      if Completion(usage).None? {
        return Err(UpstreamResponse(NoGroundingUsage));
      }
      if request.maxTokens.value - Completion(usage).value < 1 {
        return Err(UpstreamResponse(BudgetConsumed));
      }
      remaining := Some(request.maxTokens.value - Completion(usage).value);
    }
    var asked := Obj(map["role" := Str("assistant"), "content" := Get(assistant, "content"), "tool_calls" := calls]);
    r := Ok((Payload(target.model, MessagesJson(request.messages) + [asked] + collected.value.messages,
      target.provider, remaining, false),
             Dedup(collected.value.sources)));
  }

  /** OmniRouteAIProvider.complete */
  method CompleteCall(client: Client, request: Request, target: Target, loads: string -> Option<Json>)
    returns (r: Result<AIResponse, AIError>)
    requires client.sent == []
    modifies client
    ensures (r, client.sent) == Complete(request, target, loads, client.answer)
  {
    ghost var p1 := FirstPayload(request, target);
    var upstream := client.ChatCompletions(FirstPayload(request, target));
    assert client.sent == [p1];
    if !upstream.Reply? {
      return Err(FaultError(upstream));
    }
    var sources: seq<string>, first: Option<AIUsage> := [], None;
    if request.grounding {
      first := NormalizeUsage(Field(upstream.body, "usage"));
      var followup := GroundedFollowup(request, target, upstream.body, first, loads);
      if followup.Err? {
        return Err(followup.error);
      }
      sources := followup.value.1;
      upstream := client.ChatCompletions(followup.value.0);
      assert client.sent == [p1, followup.value.0];
      if !upstream.Reply? {
        return Err(FaultError(upstream));
      }
    }
    r := Respond(request, target, upstream, first, sources);
  }

  // ---------------------------------------------------------------- the token budget

  /** Whatever the upstream answers: a completion returned under a ceiling M reports a completion usage,
      and it is at most M. */
  lemma CeilingHolds(request: Request, target: Target, loads: string -> Option<Json>, answer: seq<Payload> -> Reply)
    requires request.maxTokens.Some? && Complete(request, target, loads, answer).0.Ok?
    ensures var response := Complete(request, target, loads, answer).0.value;
      Completion(response.usage).Some? && Completion(response.usage).value <= request.maxTokens.value
  {
  }

  lemma FollowupBudget(request: Request, target: Target, body: Body, usage: Option<AIUsage>,
                       loads: string -> Option<Json>)
    requires request.maxTokens.Some? && Followup(request, target, body, usage, loads).Ok?
    ensures Completion(usage).Some? && request.maxTokens.value - Completion(usage).value >= 1
    ensures Followup(request, target, body, usage, loads).value.0.maxTokens ==
              Some(request.maxTokens.value - Completion(usage).value)
  {
    hide Collect, CallIds, FirstMessage, MessagesJson, Get;
  }

  lemma RespondBudget(request: Request, target: Target, reply: Reply, first: Option<AIUsage>, sources: seq<string>)
    requires request.maxTokens.Some? && reply.Reply? && Respond(request, target, reply, first, sources).Ok?
             && Completion(first).Some?
    ensures var m, reported := request.maxTokens.value,
              Completion(Respond(request, target, reply, first, sources).value.usage);
      var second := NormalizeUsage(Field(reply.body, "usage"));
      && (second.Some? ==>
           Completion(second).Some?
           && reported == Some(Completion(first).value + Completion(second).value) && reported.value <= m)
      && (second.None? ==> reported == Completion(first))
  {
    hide FirstMessage, NormalizeUsage, Get;
  }

  /** A grounded completion under a ceiling M sends exactly two calls; the second carries the ceiling
      M - c1, at least 1, where c1 is what the first reply reports. With a usage object in the second reply
      its completion count c2 is present and c1 + c2 <= M is what is returned; without one, c1 alone is. */
  lemma GroundedBudget(request: Request, target: Target, loads: string -> Option<Json>, answer: seq<Payload> -> Reply)
    requires request.grounding && request.maxTokens.Some? && Complete(request, target, loads, answer).0.Ok?
    ensures var (result, sent) := Complete(request, target, loads, answer);
      var m, reported := request.maxTokens.value, Completion(result.value.usage);
      && |sent| == 2 && answer([sent[0]]).Reply? && answer([sent[0], sent[1]]).Reply? && sent[0].maxTokens == Some(m)
      && var c1 := Completion(NormalizeUsage(Field(answer([sent[0]]).body, "usage")));
      var second := NormalizeUsage(Field(answer([sent[0], sent[1]]).body, "usage"));
      && c1.Some? && sent[1].maxTokens == Some(m - c1.value) && m - c1.value >= 1
      && (second.Some? ==>
           Completion(second).Some? && reported == Some(c1.value + Completion(second).value)
           && reported.value <= m)
      && (second.None? ==> reported == c1)
  {
    hide Followup, Respond, NormalizeUsage;
    var p1 := FirstPayload(request, target);
    var r1 := answer([p1]);
    var first := NormalizeUsage(Field(r1.body, "usage"));
    FollowupBudget(request, target, r1.body, first, loads);
    var (p2, sources) := Followup(request, target, r1.body, first, loads).value;
    RespondBudget(request, target, answer([p1, p2]), first, sources);
  }

  /** The reply has a usage object that lacks a completion count. */
  predicate LacksCompletion(reply: Reply) {
    reply.Reply? && NormalizeUsage(Field(reply.body, "usage")).Some?
      && Completion(NormalizeUsage(Field(reply.body, "usage"))).None?
  }

  lemma RespondRefuses(request: Request, target: Target, reply: Reply, first: Option<AIUsage>, sources: seq<string>)
    requires request.maxTokens.Some? && LacksCompletion(reply)
    ensures Respond(request, target, reply, first, sources).Err?
  {
    hide FirstMessage, NormalizeUsage, Get;
  }

  /** A usage object without a completion count is refused, in either call. */
  lemma UnprovenUsageRefused(request: Request, target: Target, loads: string -> Option<Json>,
                             answer: seq<Payload> -> Reply)
    requires request.maxTokens.Some?
    requires var sent := Complete(request, target, loads, answer).1;
      LacksCompletion(answer([sent[0]])) || (|sent| == 2 && LacksCompletion(answer([sent[0], sent[1]])))
    ensures Complete(request, target, loads, answer).0.Err?
  {
    hide Respond, Followup, NormalizeUsage;
    var (result, sent) := Complete(request, target, loads, answer);
    var r1 := answer([sent[0]]);
    if r1.Reply? {
      var first := NormalizeUsage(Field(r1.body, "usage"));
      if LacksCompletion(r1) {
        RespondRefuses(request, target, r1, None, []);
      }
      if request.grounding && Followup(request, target, r1.body, first, loads).Ok? {
        FollowupBudget(request, target, r1.body, first, loads);
        var (p2, sources) := Followup(request, target, r1.body, first, loads).value;
        if LacksCompletion(answer([sent[0], p2])) {
          RespondRefuses(request, target, answer([sent[0], p2]), first, sources);
        }
      }
    }
  }

  /** A second reply without a usage object: under a ceiling it is accepted exactly when it carries text
      and no source is blank, however long that text is, and the first call's usage is what is reported. */
  lemma SilentSecondReplyExactly(request: Request, target: Target, loads: string -> Option<Json>,
                                 answer: seq<Payload> -> Reply,
                                 p2: Payload, sources: seq<string>)
    requires request.grounding && request.maxTokens.Some?
    requires var r1 := answer([FirstPayload(request, target)]);
      r1.Reply? && Followup(request, target, r1.body, NormalizeUsage(Field(r1.body, "usage")), loads) ==
        Ok((p2, sources))
    requires var r2 := answer([FirstPayload(request, target), p2]);
      r2.Reply? && !Field(r2.body, "usage").Obj?
    ensures var r1, r2 := answer([FirstPayload(request, target)]), answer([FirstPayload(request, target), p2]);
      var (result, text) := (Complete(request, target, loads, answer).0, FirstMessage(r2.body));
      && (result.Ok? <==>
           text.Some? && Get(text.value, "content").Str?
           && forall i | 0 <= i < |sources| :: !IsBlank(sources[i]))
      && (result.Ok? ==>
           result.value.content == Get(text.value, "content").s
           && result.value.usage == NormalizeUsage(Field(r1.body, "usage")))
  {
    hide Followup, FirstMessage, IsBlank;
    var r1 := answer([FirstPayload(request, target)]);
    FollowupBudget(request, target, r1.body, NormalizeUsage(Field(r1.body, "usage")), loads);
  }

  const EXAMPLE_CALL: Json := Obj(map["id" := Str("c1"), "function" := Obj(map["name" := Str("omniroute_web_search")])])
  const EXAMPLE_TEXT: string := "{\"success\": true, \"results\": [{\"url\": \"u\"}]}"
  const EXAMPLE_RESULT: Json := Obj(map["tool_call_id" := Str("c1"), "output" := Str(EXAMPLE_TEXT)])
  const EXAMPLE_EVIDENCE: Json := Obj(map["success" := Bool(true), "results" := Arr([Obj(map["url" := Str("u")])])])
  const EXAMPLE_FIRST: Body := map[
    "choices" := Arr([Obj(map["message" := Obj(map["tool_calls" := Arr([EXAMPLE_CALL])])])]),
    "tool_results" := Arr([EXAMPLE_RESULT]),
    "usage" := Obj(map["completion_tokens" := Int(1)])]
  const EXAMPLE_SECOND: Body := map["choices" := Arr([Obj(map["message" := Obj(map["content" := Str("any length")])])])]

  function ExampleAnswer(sent: seq<Payload>): Reply {
    if |sent| == 1 then Reply(EXAMPLE_FIRST, None) else Reply(EXAMPLE_SECOND, None)
  }

  /** Parses this one text, to what it denotes. */
  function ExampleLoads(text: string): Option<Json> { if text == EXAMPLE_TEXT then Some(EXAMPLE_EVIDENCE) else None }

  lemma CallIdsOfOne(call: Json, id: Hashed)
    requires SearchCall(call) && Hash(Get(call, "id")) == Some(id)
    ensures CallIds([call]) == Some({id})
  {
    assert [call][..0] == [];
    assert {} + {id} == {id};
    assert CallIds([call]).Some? && CallIds([call]).value == {} + {id};
  }

  lemma CollectOfOne(result: Json, ids: set<Hashed>, loads: string -> Option<Json>, items: seq<Json>)
    requires Evidence(result, ids, loads) == Ok(items)
    ensures Collect([result], ids, loads) == Ok(Collected(Urls(items), [ToolMessage(result)]))
  {
    hide Evidence, Urls;
    assert [result][..0] == [];
    assert Collect([result][..0], ids, loads) == Ok(Collected([], []));
    assert [] + Urls(items) == Urls(items) && [] + [ToolMessage(result)] == [ToolMessage(result)];
  }

  lemma ExampleUrls()
    ensures Evidence(EXAMPLE_RESULT, {HashedText("c1")}, ExampleLoads) == Ok(EXAMPLE_EVIDENCE.fields["results"].items)
    ensures Urls(EXAMPLE_EVIDENCE.fields["results"].items) == ["u"] && Dedup(["u"]) == ["u"]
  {
    var items := EXAMPLE_EVIDENCE.fields["results"].items;
    assert items[..0] == [] && ["u"][..0] == [];
  }

  lemma ExampleFollowup(request: Request, target: Target)
    requires request.maxTokens == Some(2)
    ensures var usage := NormalizeUsage(Field(EXAMPLE_FIRST, "usage"));
      var f := Followup(request, target, EXAMPLE_FIRST, usage, ExampleLoads);
      f.Ok? && f.value.1 == ["u"]
  {
    hide Collect, CallIds, Urls, Dedup, Evidence, MessagesJson;
    ExampleUrls();
    CallIdsOfOne(EXAMPLE_CALL, HashedText("c1"));
    CollectOfOne(EXAMPLE_RESULT, {HashedText("c1")}, ExampleLoads, EXAMPLE_EVIDENCE.fields["results"].items);
  }

  /** The second reply is text without a usage object; the first one reports a completion of 1. */
  lemma ExampleReplies()
    ensures FirstMessage(EXAMPLE_SECOND).Some?
              && Get(FirstMessage(EXAMPLE_SECOND).value, "content") == Str("any length")
    ensures !Field(EXAMPLE_SECOND, "usage").Obj?
    ensures Completion(NormalizeUsage(Field(EXAMPLE_FIRST, "usage"))) == Some(1)
    ensures !IsBlank("u")
  {
    hide IsBlank;
    OneLetter();
  }

  lemma OneLetter()
    ensures !IsBlank("u")
  {
    hide Strip;
    StripFinds("", "u", "");
    assert "" + "u" + "" == "u";
  }

  /** So the ceiling can go unproven: under a ceiling of 2, a second reply of any length that reports no
      usage is returned as a completion of 1 token. */
  lemma UnprovenCeiling(messages: seq<Message>, target: Target)
    ensures var result := Complete(Request(messages, Some(2), true), target, ExampleLoads, ExampleAnswer).0;
      result.Ok? && result.value.content == "any length" && Completion(result.value.usage) == Some(1)
  {
    hide Followup, Complete, FirstMessage, NormalizeUsage, Completion, Field, Get, IsBlank, FirstPayload;
    var request, usage := Request(messages, Some(2), true), NormalizeUsage(Field(EXAMPLE_FIRST, "usage"));
    ExampleFollowup(request, target);
    ExampleReplies();
    var (p2, sources) := Followup(request, target, EXAMPLE_FIRST, usage, ExampleLoads).value;
    SilentSecondReplyExactly(request, target, ExampleLoads, ExampleAnswer, p2, sources);
  }

  // ---------------------------------------------------------------- the transcript

  lemma {:induction false} CollectedMessages(results: seq<Json>, ids: set<Hashed>, loads: string -> Option<Json>)
    requires Collect(results, ids, loads).Ok?
    ensures var messages := Collect(results, ids, loads).value.messages;
      && |messages| == |results|
      && forall i | 0 <= i < |results| :: messages[i] == ToolMessage(results[i]) && Evidence(results[i], ids, loads).Ok?
  {
    if results != [] {
      CollectedMessages(results[..|results| - 1], ids, loads);
    }
  }

  /** The web-search calls of the assistant message declare the ids. */
  lemma {:induction false} IdsAreDeclared(calls: seq<Json>, id: Hashed)
    requires CallIds(calls).Some?
    ensures id in CallIds(calls).value <==>
              exists i :: 0 <= i < |calls| && SearchCall(calls[i]) && Hash(Get(calls[i], "id")) == Some(id)
  {
    if calls != [] {
      IdsAreDeclared(calls[..|calls| - 1], id);
    }
  }

  /** A JSON number as Python compares it; a boolean is 1 or 0. */
  predicate IsNumber(j: Json) { j.Int? || j.Float? || j.Bool? }

  function NumberOf(j: Json): real
    requires IsNumber(j)
  {
    match j
    case Int(n) => n as real
    case Float(r) => r
    case Bool(b) => if b then 1.0 else 0.0
  }

  /** Two ids that are one element of a set: equal texts, equal numbers, or both null. */
  predicate SameId(a: Json, b: Json) {
    (a.Str? && a == b) || (a.Null? && b.Null?) || (IsNumber(a) && IsNumber(b) && NumberOf(a) == NumberOf(b))
  }

  lemma SameIdExactly(a: Json, b: Json)
    ensures SameId(a, b) <==> Hash(a).Some? && Hash(a) == Hash(b)
  {
  }

  /** A call of the assistant message that searches the Web. */
  predicate Searches(call: Json) {
    && call.Obj? && "function" in call.fields && call.fields["function"].Obj?
    && "name" in call.fields["function"].fields
    && call.fields["function"].fields["name"] == Str("omniroute_web_search")
  }

  /** The id of a call or the like; null if it has none. */
  function IdOf(j: Json, key: string): Json
    requires j.Obj?
  {
    if key in j.fields then j.fields[key] else Null
  }

  /** Some call of the assistant message searches the Web under this id. */
  ghost predicate Declares(calls: seq<Json>, id: Json) {
    exists i :: 0 <= i < |calls| && Searches(calls[i]) && SameId(IdOf(calls[i], "id"), id)
  }

  lemma DeclaresExactly(calls: seq<Json>, id: Json)
    requires CallIds(calls).Some?
    ensures Declares(calls, id) <==> Hash(id).Some? && Hash(id).value in CallIds(calls).value
  {
    hide CallIds;
    forall i | 0 <= i < |calls| && Searches(calls[i]) ensures SameId(IdOf(calls[i], "id"), id) <==>
                Hash(IdOf(calls[i], "id")).Some? && Hash(IdOf(calls[i], "id")) == Hash(id) {
      SameIdExactly(IdOf(calls[i], "id"), id);
    }
    assert forall i | 0 <= i < |calls| :: Searches(calls[i]) <==> SearchCall(calls[i]);
    assert forall i | 0 <= i < |calls| && Searches(calls[i]) :: IdOf(calls[i], "id") == Get(calls[i], "id");
    if Hash(id).Some? {
      IdsAreDeclared(calls, Hash(id).value);
    }
  }

  // ---------------------------------------------------------------- what counts as evidence

  /** The value is neither null, false, zero nor empty. */
  predicate Meaningful(j: Json) {
    j != Null && j != Bool(false) && j != Int(0) && j != Float(0.0) && j != Str("") && j != Arr([]) && j != Obj(map[])
  }

  /** The tool result answers a declared web-search call, and its output is the text of an object that reports
      success and these results, at least one. */
  ghost predicate IsEvidence(result: Json, calls: seq<Json>, loads: string -> Option<Json>, items: seq<Json>) {
    && result.Obj? && Declares(calls, IdOf(result, "tool_call_id"))
    && "output" in result.fields && result.fields["output"].Str?
    && loads(result.fields["output"].s).Some? && loads(result.fields["output"].s).value.Obj?
    && var evidence := loads(result.fields["output"].s).value.fields;
    && "success" in evidence && Meaningful(evidence["success"])
    && "results" in evidence && evidence["results"] == Arr(items) && items != []
  }

  /** A tool result is accepted, with these items, exactly when it is such evidence. */
  lemma EvidenceExactly(result: Json, calls: seq<Json>, loads: string -> Option<Json>, items: seq<Json>)
    requires CallIds(calls).Some?
    ensures Evidence(result, CallIds(calls).value, loads) == Ok(items) <==> IsEvidence(result, calls, loads, items)
  {
    hide CallIds, Declares, Hash;
    DeclaresExactly(calls, Get(result, "tool_call_id"));
    if result.Obj? {
      assert IdOf(result, "tool_call_id") == Get(result, "tool_call_id");
    }
  }

  /** All results are evidence. */
  ghost predicate AllEvidence(results: seq<Json>, calls: seq<Json>, loads: string -> Option<Json>) {
    forall i | 0 <= i < |results| :: Evident(results[i], calls, loads)
  }

  ghost predicate Evident(result: Json, calls: seq<Json>, loads: string -> Option<Json>) {
    exists items :: IsEvidence(result, calls, loads, items)
  }

  lemma {:induction false} CollectAcceptsExactly(results: seq<Json>, calls: seq<Json>, loads: string -> Option<Json>)
    requires CallIds(calls).Some?
    ensures Collect(results, CallIds(calls).value, loads).Ok? <==> AllEvidence(results, calls, loads)
  {
    hide IsEvidence, CallIds, Evidence, Urls, ToolMessage;
    if results != [] {
      var n := |results| - 1;
      var ids := CallIds(calls).value;
      CollectAcceptsExactly(results[..n], calls, loads);
      assert AllEvidence(results, calls, loads) <==>
        AllEvidence(results[..n], calls, loads) && Evident(results[n], calls, loads);
      forall items ensures Evidence(results[n], ids, loads) == Ok(items) <==>
          IsEvidence(results[n], calls, loads, items) {
        EvidenceExactly(results[n], calls, loads, items);
      }
      if Evidence(results[n], ids, loads).Ok? {
        assert IsEvidence(results[n], calls, loads, Evidence(results[n], ids, loads).value);
      }
    }
  }

  /** The parts of the first reply that an accepted follow-up is built from. */
  lemma FollowupParts(request: Request, target: Target, body: Body, usage: Option<AIUsage>,
                      loads: string -> Option<Json>)
    requires Followup(request, target, body, usage, loads).Ok?
    ensures FirstMessage(body).Some? && "tool_results" in body && body["tool_results"].Arr?
    ensures Get(FirstMessage(body).value, "tool_calls").Arr?
            && CallIds(Get(FirstMessage(body).value, "tool_calls").items).Some?
    ensures var assistant, results := FirstMessage(body).value, body["tool_results"].items;
      var calls := Get(assistant, "tool_calls");
      var c := Collect(results, CallIds(calls.items).value, loads);
      var (payload, sources) := Followup(request, target, body, usage, loads).value;
      && c.Ok? && c.value.sources != [] && sources == Dedup(c.value.sources)
      && payload.messages == MessagesJson(request.messages)
           + [Obj(map["role" := Str("assistant"), "content" := Get(assistant, "content"), "tool_calls" := calls])]
             + c.value.messages
  {
    hide Collect, CallIds, FirstMessage, MessagesJson, Dedup;
  }

  /** The follow-up transcript: the original messages, the assistant message with its calls, then one tool
      message per tool result, in order, each with the result's text and id; and each result is evidence for
      some web-search call of the assistant message. */
  lemma Transcript(request: Request, target: Target, body: Body, usage: Option<AIUsage>, loads: string -> Option<Json>)
    requires Followup(request, target, body, usage, loads).Ok?
    ensures var messages := Followup(request, target, body, usage, loads).value.0.messages;
      var n, assistant, results := |request.messages|, FirstMessage(body), Field(body, "tool_results");
      && assistant.Some? && Get(assistant.value, "tool_calls").Arr? && results.Arr?
      && |messages| == n + 1 + |results.items|
      && (forall i | 0 <= i < n ::
            messages[i] == Obj(map["role" := Str(request.messages[i].role),
                "content" := Str(request.messages[i].content)]))
      && messages[n] == Obj(map["role" := Str("assistant"), "content" := Get(assistant.value, "content"),
           "tool_calls" := Get(assistant.value, "tool_calls")])
      && AllEvidence(results.items, Get(assistant.value, "tool_calls").items, loads)
      && forall i | 0 <= i < |results.items| ::
           && results.items[i].Obj? && "output" in results.items[i].fields
           && messages[n + 1 + i] == Obj(map["role" := Str("tool"),
                "tool_call_id" := IdOf(results.items[i], "tool_call_id"),
                "content" := results.items[i].fields["output"]])
  {
    hide Followup, Collect, CallIds, FirstMessage, Declares;
    FollowupParts(request, target, body, usage, loads);
    var calls, results := Get(FirstMessage(body).value, "tool_calls").items, body["tool_results"].items;
    CollectedMessages(results, CallIds(calls).value, loads);
    CollectAcceptsExactly(results, calls, loads);
    forall i | 0 <= i < |results|
      ensures results[i].Obj? && "output" in results[i].fields
      ensures ToolMessage(results[i]) == Obj(map["role" := Str("tool"),
                "tool_call_id" := IdOf(results[i], "tool_call_id"),
                "content" := results[i].fields["output"]])
    {
      assert Evident(results[i], calls, loads);
      var items :| IsEvidence(results[i], calls, loads, items);
    }
  }

  // ---------------------------------------------------------------- the sources

  function FirstIndex(s: seq<string>, x: string): nat
    requires x in s
    ensures FirstIndex(s, x) < |s| && s[FirstIndex(s, x)] == x && x !in s[..FirstIndex(s, x)]
  {
    if s[0] == x then 0
    else
      assert s == [s[0]] + s[1..];
      var k := FirstIndex(s[1..], x);
      assert s[..k + 1] == [s[0]] + s[1..][..k];
      k + 1
  }

  lemma {:induction false} FirstIndexOfPrefix(s: seq<string>, x: string, n: nat)
    requires n <= |s| && x in s[..n]
    ensures x in s && FirstIndex(s, x) == FirstIndex(s[..n], x) < n
  {
    if s[0] != x {
      assert s[..n][1..] == s[1..][..n - 1];
      assert s[..n] == [s[0]] + s[..n][1..];
      FirstIndexOfPrefix(s[1..], x, n - 1);
    }
  }

  /** Deduplication keeps exactly the elements, once each, in the order of their first occurrence. */
  lemma {:induction false} DedupMeans(s: seq<string>)
    ensures forall x :: x in Dedup(s) <==> x in s
    ensures forall i, j | 0 <= i < j < |Dedup(s)| ::
              Dedup(s)[i] != Dedup(s)[j] && FirstIndex(s, Dedup(s)[i]) < FirstIndex(s, Dedup(s)[j])
  {
    if s != [] {
      var n := |s| - 1;
      DedupMeans(s[..n]);
      assert s == s[..n] + [s[n]];
      forall i, j | 0 <= i < j < |Dedup(s)|
        ensures Dedup(s)[i] != Dedup(s)[j] && FirstIndex(s, Dedup(s)[i]) < FirstIndex(s, Dedup(s)[j])
      {
        FirstIndexOfPrefix(s, Dedup(s)[i], n);
        if Dedup(s)[j] in s[..n] {
          FirstIndexOfPrefix(s, Dedup(s)[j], n);
        }
      }
    }
  }

  /** The URL of an evidence item, if it has one: a non-empty text under "url". */
  function ItemUrl(item: Json): seq<string> {
    if item.Obj? && "url" in item.fields && item.fields["url"].Str? && item.fields["url"].s != ""
    then [item.fields["url"].s] else []
  }

  /** The URLs of evidence items, in order. */
  function ItemUrls(items: seq<Json>): seq<string> {
    if items == [] then [] else ItemUrl(items[0]) + ItemUrls(items[1..])
  }

  /** What the text of a tool result lists under "results". */
  function Listed(result: Json, loads: string -> Option<Json>): seq<Json> {
    if result.Obj? && "output" in result.fields && result.fields["output"].Str? then
      match loads(result.fields["output"].s)
      case Some(Obj(fields)) => if "results" in fields && fields["results"].Arr? then fields["results"].items else []
      case _ => []
    else []
  }

  /** The URLs of the tool results, in order. */
  function ResultUrls(results: seq<Json>, loads: string -> Option<Json>): seq<string> {
    if results == [] then [] else ItemUrls(Listed(results[0], loads)) + ResultUrls(results[1..], loads)
  }

  lemma {:induction false} ItemUrlsLast(items: seq<Json>, item: Json)
    ensures ItemUrls(items + [item]) == ItemUrls(items) + ItemUrl(item)
  {
    hide ItemUrl;
    if items == [] {
      assert [] + [item] == [item] && [item][1..] == [];
    } else {
      assert (items + [item])[0] == items[0] && (items + [item])[1..] == items[1..] + [item];
      ItemUrlsLast(items[1..], item);
    }
  }

  lemma {:induction false} UrlsAre(items: seq<Json>)
    ensures Urls(items) == ItemUrls(items)
  {
    if items != [] {
      var n := |items| - 1;
      UrlsAre(items[..n]);
      ItemUrlsLast(items[..n], items[n]);
      assert items[..n] + [items[n]] == items;
    }
  }

  lemma {:induction false} ResultUrlsLast(results: seq<Json>, result: Json, loads: string -> Option<Json>)
    ensures ResultUrls(results + [result], loads) == ResultUrls(results, loads) + ItemUrls(Listed(result, loads))
  {
    hide ItemUrls, Listed;
    if results == [] {
      assert [] + [result] == [result] && [result][1..] == [];
    } else {
      assert (results + [result])[0] == results[0] && (results + [result])[1..] == results[1..] + [result];
      ResultUrlsLast(results[1..], result, loads);
    }
  }

  lemma ListedIs(result: Json, calls: seq<Json>, loads: string -> Option<Json>, items: seq<Json>)
    requires IsEvidence(result, calls, loads, items)
    ensures Listed(result, loads) == items
  {
    hide Declares;
  }

  lemma {:induction false} CollectedSources(results: seq<Json>, calls: seq<Json>, loads: string -> Option<Json>)
    requires CallIds(calls).Some? && Collect(results, CallIds(calls).value, loads).Ok?
    ensures Collect(results, CallIds(calls).value, loads).value.sources == ResultUrls(results, loads)
  {
    hide CallIds, IsEvidence, Listed, Urls, ItemUrls, ToolMessage;
    if results != [] {
      var n, ids := |results| - 1, CallIds(calls).value;
      CollectedSources(results[..n], calls, loads);
      var items := Evidence(results[n], ids, loads).value;
      EvidenceExactly(results[n], calls, loads, items);
      ListedIs(results[n], calls, loads, items);
      UrlsAre(items);
      ResultUrlsLast(results[..n], results[n], loads);
      assert results[..n] + [results[n]] == results;
    }
  }

  /** Some item of some tool result has this URL, and it is not empty. */
  ghost predicate EvidenceUrl(results: seq<Json>, calls: seq<Json>, loads: string -> Option<Json>, url: string) {
    exists i, items, m :: 0 <= i < |results| && IsEvidence(results[i], calls, loads, items) && HasItem(items, m, url)
  }

  predicate HasItem(items: seq<Json>, m: int, url: string) {
    0 <= m < |items| && items[m].Obj? && "url" in items[m].fields && items[m].fields["url"] == Str(url) && url != ""
  }

  lemma {:induction false} ItemUrlsHave(items: seq<Json>, url: string)
    ensures url in ItemUrls(items) <==> exists m :: HasItem(items, m, url)
  {
    if items != [] {
      ItemUrlsHave(items[1..], url);
      if m :| HasItem(items, m, url) {
        assert m == 0 || HasItem(items[1..], m - 1, url);
      }
      if m :| HasItem(items[1..], m, url) {
        assert HasItem(items, m + 1, url);
      }
      assert url in ItemUrl(items[0]) <==> HasItem(items, 0, url);
    }
  }

  lemma {:induction false} ResultUrlsHave(results: seq<Json>, loads: string -> Option<Json>, url: string)
    ensures url in ResultUrls(results, loads) <==>
              exists i :: 0 <= i < |results| && url in ItemUrls(Listed(results[i], loads))
  {
    hide ItemUrls, Listed;
    if results != [] {
      ResultUrlsHave(results[1..], loads, url);
      assert forall i | 1 <= i < |results| :: results[i] == results[1..][i - 1];
      if i :| 0 <= i < |results[1..]| && url in ItemUrls(Listed(results[1..][i], loads)) {
        assert results[i + 1] == results[1..][i];
      }
    }
  }

  lemma ResultUrlsAreEvidence(results: seq<Json>, calls: seq<Json>, loads: string -> Option<Json>, url: string)
    requires AllEvidence(results, calls, loads)
    ensures url in ResultUrls(results, loads) <==> EvidenceUrl(results, calls, loads, url)
  {
    hide ItemUrls, Listed, ResultUrls, IsEvidence, HasItem;
    ResultUrlsHave(results, loads, url);
    forall i, items | 0 <= i < |results| && IsEvidence(results[i], calls, loads, items)
      ensures url in ItemUrls(Listed(results[i], loads)) <==> exists m :: HasItem(items, m, url)
    {
      ListedIs(results[i], calls, loads, items);
      ItemUrlsHave(items, url);
    }
    if i :| 0 <= i < |results| && url in ItemUrls(Listed(results[i], loads)) {
      assert Evident(results[i], calls, loads);
      var items :| IsEvidence(results[i], calls, loads, items);
      var m :| HasItem(items, m, url);
    }
  }

  /** The source list is not empty, has no duplicates, contains exactly the non-empty URLs of the evidence, and
      follows the order in which they first occur. */
  lemma Sources(request: Request, target: Target, body: Body, usage: Option<AIUsage>, loads: string -> Option<Json>)
    requires Followup(request, target, body, usage, loads).Ok?
    ensures FirstMessage(body).Some? && Get(FirstMessage(body).value, "tool_calls").Arr? && "tool_results" in body
            && body["tool_results"].Arr?
    ensures var sources := Followup(request, target, body, usage, loads).value.1;
      var calls, results := Get(FirstMessage(body).value, "tool_calls").items, body["tool_results"].items;
      var all := ResultUrls(results, loads);
      && sources != [] && AllEvidence(results, calls, loads)
      && (forall url :: url in sources <==> EvidenceUrl(results, calls, loads, url))
      && (forall i, j | 0 <= i < j < |sources| :: sources[i] != sources[j])
      && (forall x | x in sources :: x in all)
      && (forall i, j | 0 <= i < j < |sources| :: FirstIndex(all, sources[i]) < FirstIndex(all, sources[j]))
  {
    hide Followup, Collect, CallIds, FirstMessage, EvidenceUrl, AllEvidence, ResultUrls;
    FollowupParts(request, target, body, usage, loads);
    var calls, results := Get(FirstMessage(body).value, "tool_calls").items, body["tool_results"].items;
    var all := ResultUrls(results, loads);
    CollectAcceptsExactly(results, calls, loads);
    CollectedSources(results, calls, loads);
    DedupMeans(all);
    forall url ensures url in all <==> EvidenceUrl(results, calls, loads, url) {
      ResultUrlsAreEvidence(results, calls, loads, url);
    }
    assert all[0] in Dedup(all);
  }

  // ---------------------------------------------------------------- what is accepted

  /** The first choice of a reply carries this message. */
  predicate Says(body: Body, message: Json) {
    && "choices" in body && body["choices"].Arr? && body["choices"].items != []
    && body["choices"].items[0].Obj? && "message" in body["choices"].items[0].fields
    && body["choices"].items[0].fields["message"] == message
  }

  lemma SaysExactly(body: Body, message: Json)
    ensures Says(body, message) <==> FirstMessage(body) == Some(message)
  {
  }

  /** The reply carries calls, at least one, and tool results. */
  predicate Carries(body: Body, assistant: Json, calls: seq<Json>, results: seq<Json>) {
    && Says(body, assistant) && assistant.Obj?
    && "tool_calls" in assistant.fields && assistant.fields["tool_calls"] == Arr(calls) && calls != []
    && "tool_results" in body && body["tool_results"] == Arr(results)
  }

  predicate IsId(j: Json) { j.Str? || IsNumber(j) }

  /** Some call searches the Web, and every such call has an id that is a text or a number. */
  ghost predicate Identified(calls: seq<Json>) {
    && (exists i :: 0 <= i < |calls| && Searches(calls[i]))
    && (forall i | 0 <= i < |calls| && Searches(calls[i]) :: IsId(IdOf(calls[i], "id")))
  }

  lemma {:induction false} CallIdsExactly(calls: seq<Json>)
    ensures CallIds(calls).Some? <==> forall i | 0 <= i < |calls|
              && SearchCall(calls[i]) :: Hash(Get(calls[i], "id")).Some?
    ensures CallIds(calls).Some? ==> (CallIds(calls).value == {} <==> forall i | 0 <= i < |calls| ::
              !SearchCall(calls[i]))
  {
    hide SearchCall, Hash;
    if calls != [] {
      CallIdsExactly(calls[..|calls| - 1]);
    }
  }

  lemma IdentifiedExactly(calls: seq<Json>)
    ensures Identified(calls) <==>
              CallIds(calls).Some? && HashedNull !in CallIds(calls).value && CallIds(calls).value != {}
  {
    hide CallIds;
    CallIdsExactly(calls);
    assert forall i | 0 <= i < |calls| :: Searches(calls[i]) <==> SearchCall(calls[i]);
    assert forall i | 0 <= i < |calls| && Searches(calls[i]) :: IdOf(calls[i], "id") == Get(calls[i], "id");
    assert forall j: Json :: IsId(j) <==> Hash(j).Some? && Hash(j) != Some(HashedNull);
    if CallIds(calls).Some? {
      IdsAreDeclared(calls, HashedNull);
    }
  }

  /** What is left of the ceiling after the first call, if there is one and something is left. */
  predicate Leaves(request: Request, usage: Option<AIUsage>, remaining: Option<int>) {
    match request.maxTokens
    case None => remaining == None
    case Some(m) =>
      && usage.Some? && usage.value.completion.Some?
      && remaining == Some(m - usage.value.completion.value) && remaining.value >= 1
  }

  ghost predicate Grounded(request: Request, body: Body, usage: Option<AIUsage>, loads: string -> Option<Json>) {
    && (exists remaining :: Leaves(request, usage, remaining))
    && exists assistant, calls, results ::
         && Carries(body, assistant, calls, results) && Identified(calls)
         && AllEvidence(results, calls, loads) && ResultUrls(results, loads) != []
  }

  /** The first reply leads to a second call exactly when it carries identified web-search calls and tool
      results that are all evidence with some URL, and leaves something of the ceiling. */
  lemma FollowupAcceptsExactly(request: Request, target: Target, body: Body, usage: Option<AIUsage>,
                               loads: string -> Option<Json>)
    ensures Followup(request, target, body, usage, loads).Ok? <==> Grounded(request, body, usage, loads)
  {
    hide Collect, CallIds, FirstMessage, Says, Identified, AllEvidence, ResultUrls, MessagesJson, Dedup;
    forall message ensures Says(body, message) <==> FirstMessage(body) == Some(message) {
      SaysExactly(body, message);
    }
    LeavesExactly(request, usage);
    if FirstMessage(body).Some? {
      var assistant := FirstMessage(body).value;
      if assistant.Obj? && "tool_calls" in assistant.fields && assistant.fields["tool_calls"].Arr?
        && "tool_results" in body && body["tool_results"].Arr?
      {
        var calls, results := assistant.fields["tool_calls"].items, body["tool_results"].items;
        assert Get(assistant, "tool_calls") == Arr(calls);
        IdentifiedExactly(calls);
        if CallIds(calls).Some? {
          CollectAcceptsExactly(results, calls, loads);
          if Collect(results, CallIds(calls).value, loads).Ok? {
            CollectedSources(results, calls, loads);
          }
        }
        assert Carries(body, assistant, calls, results) <==> calls != [];
      }
    }
  }

  /** Why a tool result is no evidence: it does not answer a declared call with a text that denotes an object
      with results, or that object reports no success or no results. An id that is a list or an object fails
      by itself. */
  lemma EvidenceRefusesExactly(result: Json, calls: seq<Json>, loads: string -> Option<Json>)
    requires CallIds(calls).Some?
    ensures var r := Evidence(result, CallIds(calls).value, loads);
      var id := if result.Obj? then IdOf(result, "tool_call_id") else Null;
      var answers := result.Obj? && Declares(calls, id) && "output" in result.fields && result.fields["output"].Str?;
      var parsed := if answers then loads(result.fields["output"].s) else None;
      var reports := parsed.Some? && parsed.value.Obj? && "results" in parsed.value.fields;
      && (r == Err(Unhandled) <==> result.Obj? && (id.Arr? || id.Obj?))
      && (r == Err(UpstreamResponse(BadEvidence)) <==> !reports && !(id.Arr? || id.Obj?))
      && (r == Err(UpstreamResponse(NoEvidence)) <==> reports && !Evident(result, calls, loads))
  {
    hide CallIds, Declares;
    if result.Obj? {
      assert IdOf(result, "tool_call_id") == Get(result, "tool_call_id");
      DeclaresExactly(calls, IdOf(result, "tool_call_id"));
    }
    forall items ensures Evidence(result, CallIds(calls).value, loads) == Ok(items) <==>
        IsEvidence(result, calls, loads, items) {
      EvidenceExactly(result, calls, loads, items);
    }
  }

  /** The first tool result that is no evidence decides the refusal. */
  lemma CollectRefusesExactly(results: seq<Json>, i: nat, calls: seq<Json>, loads: string -> Option<Json>, e: AIError)
    requires i < |results| && CallIds(calls).Some? && AllEvidence(results[..i], calls, loads)
    requires Evidence(results[i], CallIds(calls).value, loads) == Err(e)
    ensures Collect(results, CallIds(calls).value, loads) == Err(e)
  {
    hide AllEvidence, Evidence, CallIds;
    CollectAcceptsExactly(results[..i], calls, loads);
    assert results[..i + 1][..i] == results[..i] && results[..i + 1][i] == results[i];
    FirstRefusalStands(results, i + 1, CallIds(calls).value, loads);
  }

  /** Why there is no second call, in this order. */
  lemma FollowupRefusesExactly(request: Request, target: Target, body: Body, usage: Option<AIUsage>,
                               loads: string -> Option<Json>,
                               assistant: Json, calls: seq<Json>, results: seq<Json>)
    requires Carries(body, assistant, calls, results)
    ensures var f := Followup(request, target, body, usage, loads);
      var hashable := forall i | 0 <= i < |calls| && Searches(calls[i]) ::
                        IsId(IdOf(calls[i], "id")) || IdOf(calls[i], "id") == Null;
      var evidence := Identified(calls) && AllEvidence(results, calls, loads);
      var sources := evidence && ResultUrls(results, loads) != [];
      && (!hashable ==> f == Err(Unhandled))
      && (hashable && !Identified(calls) ==> f == Err(UpstreamResponse(BadToolCall)))
      && (Identified(calls) && !evidence ==>
            CallIds(calls).Some? && Collect(results, CallIds(calls).value, loads).Err?
            && f == Err(Collect(results, CallIds(calls).value, loads).error))
      && (evidence && !sources ==> f == Err(UpstreamResponse(NoSources)))
      && (sources && request.maxTokens.Some? && Completion(usage).None? ==>
           f == Err(UpstreamResponse(NoGroundingUsage)))
      && (sources && request.maxTokens.Some? && Completion(usage).Some?
           && request.maxTokens.value <= Completion(usage).value ==>
            f == Err(UpstreamResponse(BudgetConsumed)))
  {
    hide Collect, CallIds, FirstMessage, Says, AllEvidence, ResultUrls, MessagesJson, Dedup, Searches, SearchCall, Hash;
    SaysExactly(body, assistant);
    HashableExactly(calls);
    IdentifiedExactly(calls);
    assert Get(assistant, "tool_calls") == Arr(calls);
    if CallIds(calls).Some? {
      CollectAcceptsExactly(results, calls, loads);
      if Collect(results, CallIds(calls).value, loads).Ok? {
        CollectedSources(results, calls, loads);
      }
    }
  }

  lemma HashableExactly(calls: seq<Json>)
    ensures CallIds(calls).Some? <==>
              forall i | 0 <= i < |calls| && Searches(calls[i]) :: IsId(IdOf(calls[i], "id"))
                  || IdOf(calls[i], "id") == Null
  {
    hide CallIds;
    CallIdsExactly(calls);
    assert forall i | 0 <= i < |calls| :: Searches(calls[i]) <==> SearchCall(calls[i]);
    assert forall i | 0 <= i < |calls| && Searches(calls[i]) :: IdOf(calls[i], "id") == Get(calls[i], "id");
    assert forall j: Json :: IsId(j) || j == Null <==> Hash(j).Some?;
  }

  /** A reply that carries no calls or no tool results was not grounded at all. */
  lemma UngroundedExactly(request: Request, target: Target, body: Body, usage: Option<AIUsage>,
                          loads: string -> Option<Json>)
    ensures Followup(request, target, body, usage, loads) == Err(UpstreamResponse(NoGrounding)) <==>
              !exists assistant, calls, results :: Carries(body, assistant, calls, results)
  {
    hide Collect, CallIds, FirstMessage, Says, MessagesJson, Dedup;
    forall message ensures Says(body, message) <==> FirstMessage(body) == Some(message) {
      SaysExactly(body, message);
    }
    if FirstMessage(body).Some? && FirstMessage(body).value.Obj? {
      var assistant := FirstMessage(body).value;
      if "tool_calls" in assistant.fields && assistant.fields["tool_calls"].Arr? && "tool_results" in body
        && body["tool_results"].Arr? {
        var calls, results := assistant.fields["tool_calls"].items, body["tool_results"].items;
        assert Carries(body, assistant, calls, results) <==> calls != [];
        if CallIds(calls).Some? { CollectNeverUngrounded(results, CallIds(calls).value, loads); }
      }
    }
  }

  lemma {:induction false} CollectNeverUngrounded(results: seq<Json>, ids: set<Hashed>, loads: string -> Option<Json>)
    ensures Collect(results, ids, loads) != Err(UpstreamResponse(NoGrounding))
  {
    if results != [] {
      CollectNeverUngrounded(results[..|results| - 1], ids, loads);
    }
  }

  lemma LeavesExactly(request: Request, usage: Option<AIUsage>)
    ensures (exists remaining :: Leaves(request, usage, remaining)) <==>
              (request.maxTokens.Some? ==>
                 Completion(usage).Some? && request.maxTokens.value - Completion(usage).value >= 1)
  {
    if request.maxTokens.None? {
      assert Leaves(request, usage, None);
    } else if Completion(usage).Some? && request.maxTokens.value - Completion(usage).value >= 1 {
      assert Leaves(request, usage, Some(request.maxTokens.value - Completion(usage).value));
    }
  }

  /** The second payload goes to the same model and provider, offers no search, and carries what is left. */
  lemma FollowupPayload(request: Request, target: Target, body: Body, usage: Option<AIUsage>,
                        loads: string -> Option<Json>)
    requires Followup(request, target, body, usage, loads).Ok?
    ensures var p := Followup(request, target, body, usage, loads).value.0;
      p.model == target.model && p.provider == target.provider && !p.webSearch && Leaves(request, usage, p.maxTokens)
  {
    hide Collect, CallIds, FirstMessage, MessagesJson, Dedup, Get;
  }

  // ---------------------------------------------------------------- usage and response on their fields

  /** A token count: a non-negative integer, or a boolean, which is 1 or 0; anything else counts as missing. */
  predicate Counts(fields: map<string, Json>, key: string, n: Option<int>) {
    if key in fields && fields[key].Int? && fields[key].n >= 0 then n == Some(fields[key].n)
    else if key in fields && fields[key].Bool? then n == Some(if fields[key].b then 1 else 0)
    else n == None
  }

  lemma UsageExactly(j: Json, u: AIUsage)
    ensures NormalizeUsage(j) == Some(u) <==>
              && j.Obj? && Counts(j.fields, "prompt_tokens", u.prompt)
              && Counts(j.fields, "completion_tokens", u.completion) && Counts(j.fields, "total_tokens", u.total)
  {
  }

  /** Two counts are added when both are there; one usage alone stands as it is. */
  lemma SumExactly(a: Option<AIUsage>, b: Option<AIUsage>)
    ensures a.None? ==> SumUsage(a, b) == b
    ensures b.None? ==> SumUsage(a, b) == a
    ensures a.Some? && b.Some? ==> SumUsage(a, b).Some?
    ensures a.Some? && b.Some? ==> forall n ::
              && (SumUsage(a, b).value.prompt == Some(n) <==>
                    a.value.prompt.Some? && b.value.prompt.Some? && n == a.value.prompt.value + b.value.prompt.value)
              && (SumUsage(a, b).value.completion == Some(n) <==>
                    a.value.completion.Some? && b.value.completion.Some?
                        && n == a.value.completion.value + b.value.completion.value)
              && (SumUsage(a, b).value.total == Some(n) <==>
                    a.value.total.Some? && b.value.total.Some? && n == a.value.total.value + b.value.total.value)
  {
  }

  /** A text that is there and not empty. */
  predicate Named(body: Body, key: string) { key in body && body[key].Str? && body[key].s != "" }

  /** The reply is text, within the ceiling by the usage reported, and no source is blank. */
  predicate Acceptable(request: Request, body: Body, usage: Option<AIUsage>, sources: seq<string>) {
    && FirstMessage(body).Some? && FirstMessage(body).value.Obj? && "content" in FirstMessage(body).value.fields
    && FirstMessage(body).value.fields["content"].Str?
    && (request.maxTokens.Some? ==>
          usage.Some? && usage.value.completion.Some? && usage.value.completion.value <= request.maxTokens.value)
    && (forall i | 0 <= i < |sources| :: Strip(sources[i]) != "")
  }

  /** A reply is turned into a response exactly when it is acceptable, and this is the response: the provider
      is the one the transport selected, else the one the reply names, else the target's; the model the one
      the reply names, else the target's. */
  lemma RespondExactly(request: Request, target: Target, reply: Reply, first: Option<AIUsage>, sources: seq<string>)
    requires reply.Reply?
    ensures var result, body := Respond(request, target, reply, first, sources), reply.body;
      var usage := SumUsage(first, NormalizeUsage(if "usage" in body then body["usage"] else Null));
      && (result.Ok? <==> Acceptable(request, body, usage, sources))
      && (result.Ok? ==>
            var response := result.value;
            && response.content == FirstMessage(body).value.fields["content"].s
            && (reply.selectedProvider.Some? && reply.selectedProvider.value != "" ==>
                 response.provider == reply.selectedProvider)
            && (reply.selectedProvider.None? || reply.selectedProvider.value == "" ==>
                  response.provider == if Named(body, "provider") then Some(body["provider"].s) else target.provider)
            && response.model == (if Named(body, "model") then body["model"].s else target.model)
            && response.usage == usage && response.sources == sources && response.grounded == request.grounding
            && (response.fallbackUsed <==> "fallback_used" in body && Meaningful(body["fallback_used"])))
  {
    hide FirstMessage, NormalizeUsage, SumUsage, Strip;
  }

  /** A refused reply: no message with content, content that is no text, usage that does not prove the ceiling
      or breaks it, a blank source; the first that applies. */
  lemma RespondRefusesExactly(request: Request, target: Target, reply: Reply, first: Option<AIUsage>,
                              sources: seq<string>)
    requires reply.Reply?
    ensures var r, m := Respond(request, target, reply, first, sources), FirstMessage(reply.body);
      var completion := Completion(SumUsage(first, NormalizeUsage(Field(reply.body, "usage"))));
      var envelope := m.Some? && m.value.Obj? && "content" in m.value.fields;
      var text := envelope && m.value.fields["content"].Str?;
      var bounded := request.maxTokens.Some?;
      && (r == Err(UpstreamResponse(BadEnvelope)) <==> !envelope)
      && (r == Err(UpstreamResponse(NonText)) <==> envelope && !text)
      && (r == Err(UpstreamResponse(NoCompletionUsage)) <==> text && bounded && completion.None?)
      && (r == Err(UpstreamResponse(OverBudget)) <==>
            text && bounded && completion.Some? && completion.value > request.maxTokens.value)
      && (r == Err(Unhandled) <==>
            && text && (bounded ==> completion.Some? && completion.value <= request.maxTokens.value)
            && exists i :: 0 <= i < |sources| && Strip(sources[i]) == "")
  {
    hide FirstMessage, NormalizeUsage, SumUsage, Strip;
  }

  // ---------------------------------------------------------------- the exchange

  /** The first payload on the request's own fields. */
  lemma FirstPayloadExactly(request: Request, target: Target)
    ensures var p := FirstPayload(request, target);
      && p.model == target.model && p.provider == target.provider
      && p.maxTokens == request.maxTokens && p.webSearch == request.grounding
      && |p.messages| == |request.messages|
      && forall i | 0 <= i < |request.messages| ::
           p.messages[i] == Obj(map["role" := Str(request.messages[i].role),
               "content" := Str(request.messages[i].content)])
  {
  }

  /** What a failed exchange is reported as. */
  predicate Reports(reply: Reply, r: Result<AIResponse, AIError>) {
    && (reply.AuthFault? ==> r == Err(UpstreamAuth))
    && (reply.ClientFault? ==> r == Err(UpstreamRequest))
    && (reply.Unreachable? ==> r == Err(UpstreamUnavailable))
  }

  /** Without grounding there is one call, whose reply or fault decides. */
  lemma PlainCall(request: Request, target: Target, loads: string -> Option<Json>, answer: seq<Payload> -> Reply)
    requires !request.grounding
    ensures var (r, sent) := Complete(request, target, loads, answer);
      && sent == [FirstPayload(request, target)]
      && Reports(answer(sent), r)
      && (answer(sent).Reply? ==> r == Respond(request, target, answer(sent), None, []))
  {
  }

  /** With grounding there is a second call exactly when the first reply grounds it, and then the second reply
      or fault decides. */
  lemma GroundedCalls(request: Request, target: Target, loads: string -> Option<Json>, answer: seq<Payload> -> Reply)
    requires request.grounding
    ensures var (r, sent) := Complete(request, target, loads, answer);
      && 1 <= |sent| <= 2 && sent[0] == FirstPayload(request, target)
      && var r1 := answer([sent[0]]);
      && Reports(r1, r)
      && (|sent| == 2 <==> r1.Reply? && Grounded(request, r1.body, NormalizeUsage(Field(r1.body, "usage")), loads))
      && (r1.Reply? && |sent| == 1 ==> r.Err?)
      && (|sent| == 2 ==>
            var first := NormalizeUsage(Field(r1.body, "usage"));
            var followup := Followup(request, target, r1.body, first, loads);
            && followup.Ok? && sent[1] == followup.value.0
            && Reports(answer(sent), r)
            && (answer(sent).Reply? ==> r == Respond(request, target, answer(sent), first, followup.value.1)))
  {
    hide Followup, Respond, NormalizeUsage, Grounded;
    var p1 := FirstPayload(request, target);
    if answer([p1]).Reply? {
      var body := answer([p1]).body;
      FollowupAcceptsExactly(request, target, body, NormalizeUsage(Field(body, "usage")), loads);
    }
    var (r, sent) := Complete(request, target, loads, answer);
    if |sent| == 2 { assert sent == [sent[0], sent[1]]; }
  }

  /** No response of a completion lists a blank source, and only grounded ones list any. */
  lemma ResponseSources(request: Request, target: Target, loads: string -> Option<Json>, answer: seq<Payload> -> Reply)
    requires Complete(request, target, loads, answer).0.Ok?
    ensures var response := Complete(request, target, loads, answer).0.value;
      && response.grounded == request.grounding
      && (response.sources != [] <==> request.grounding)
      && forall i | 0 <= i < |response.sources| :: !IsBlank(response.sources[i])
  {
    if request.grounding {
      var r1 := answer([FirstPayload(request, target)]);
      Sources(request, target, r1.body, NormalizeUsage(Field(r1.body, "usage")), loads);
    }
  }
}
