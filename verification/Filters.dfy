/** The extension filter chain (yamp/filters.py). Messages are JSON objects. */
module Filters {
  import opened Basics
  import opened Json
  import Content
  import Namespace

  const POLICY_DENIED := "-32001"

  const TOOLS_CALL := "tools/call"

  const C2U := "c2u"

  /** The closed verdict set; any other kind changes nothing but the copying. */
  datatype Verdict =
    | Allow
    | Deny(reason: Json)
    | Quarantine(reason: Json)
    | Mutate(arguments: Json)
    | Annotate(provenance: Object)
    | Other(kind: string)

  predicate Terminal(v: Verdict) { v.Deny? || v.Quarantine? }

  /** Raised stands for an exception that leaves the chain. */
  datatype Outcome = Forward(message: Object) | Blocked(response: Json, quarantined: bool) | Raised

  function DenyResponse(id: Json, reason: Json): Json {
    Obj(map["jsonrpc" := Str("2.0"), "id" := id,
            "error" := Obj(map["code" := Number(POLICY_DENIED), "message" := reason])])
  }

  /** Apply one non-terminal verdict; None if the copying raises. */
  function ApplyOne(v: Verdict, message: Object): Option<Object> {
    if v.Allow? then Some(message)
    else match DictOf(GetOrNull(message, "params"))
      case None => None
      case Some(params) =>
        match v
        case Mutate(arguments) => Some(message["params" := Obj(params["arguments" := arguments])])
        case Annotate(provenance) =>
          (match DictOf(GetOrNull(params, "_meta"))
           case None => None
           case Some(meta) => Some(message["params" := Obj(params["_meta" := Obj(meta + provenance)])]))
        case _ => Some(message["params" := Obj(params)])
  }

  /** The batch form: fold a verdict list over a message. */
  function Refold(verdicts: seq<Verdict>, id: Json, message: Object): Outcome {
    if verdicts == [] then Forward(message)
    else
      var v := verdicts[0];
      if Terminal(v) then Blocked(DenyResponse(id, v.reason), v.Quarantine?)
      else match ApplyOne(v, message)
        case None => Raised
        case Some(next) => Refold(verdicts[1..], id, next)
  }

  /** `chain_outcome` as its loop runs. */
  method ChainOutcome(verdicts: seq<Verdict>, request: Object) returns (outcome: Outcome)
    ensures outcome == Refold(verdicts, GetOrNull(request, "id"), request)
  {
    var message := request;
    var i := 0;
    while i < |verdicts|
      invariant 0 <= i <= |verdicts|
      invariant Refold(verdicts, GetOrNull(request, "id"), request) ==
                Refold(verdicts[i..], GetOrNull(request, "id"), message)
    {
      var v := verdicts[i];
      if Terminal(v) {
        return Blocked(DenyResponse(GetOrNull(request, "id"), v.reason), v.Quarantine?);
      }
      var next := ApplyOne(v, message);
      if next.None? {
        return Raised;
      }
      message := next.value;
      i := i + 1;
    }
    return Forward(message);
  }

  // ---- Interest ----

  datatype Interest = Interest(methods: seq<string>, directions: seq<string>, tools: seq<string>,
                               contentTypes: seq<string>)

  datatype Context = Context(method': Json, tool: Json, direction: string, contentTypes: set<string>)

  predicate Matches(declared: seq<string>, value: Json) {
    declared == [] || "*" in declared || (value.Str? && value.s in declared)
  }

  predicate MimeMatch(pattern: string, mime: string) {
    || pattern == mime || pattern == "*"
    || (|pattern| >= 2 && pattern[|pattern| - 2..] == "/*" && pattern[..|pattern| - 1] <= mime)
  }

  predicate Interested(interest: Interest, context: Context) {
    && Matches(interest.methods, context.method')
    && Matches(interest.directions, Str(context.direction))
    && Matches(interest.tools, context.tool)
    && (interest.contentTypes == [] || "*" in interest.contentTypes ||
        exists p, m :: p in interest.contentTypes && m in context.contentTypes && MimeMatch(p, m))
  }

  /** What filters may declare interest in; None if inspecting the message raises:
      a called tool's `params` that is neither falsy nor an object, content that
      cannot be traversed, or a media type that is not a string. */
  function MessageContext(message: Object, direction: string): Option<Context> {
    var method' := GetOrNull(message, "method");
    var params := GetOrNull(message, "params");
    if method' == Str(TOOLS_CALL) && Truthy(params) && !params.Obj? then None
    else match Content.Blocks(Obj(message))
      case None => None
      case Some(blocks) =>
        if exists b :: b in blocks && Truthy(b.mime) && !b.mime.Str? then None
        else
          var tool := if method' == Str(TOOLS_CALL) && params.Obj? then GetOrNull(params.fields, "name") else Null;
          Some(Context(method', tool, direction, set b | b in blocks && b.mime.Str? && b.mime.s != "" :: b.mime.s))
  }

  // ---- Running a chain ----

  datatype FailurePolicy = FailOpen | FailClosed

  datatype Evaluation = Returned(verdict: Verdict) | Threw

  /** A filter is a function of the hook and the message: it does not change it. */
  datatype Filter = Filter(interest: Interest, policy: FailurePolicy, evaluate: (string, Object) -> Evaluation)

  function ResolveFailure(policy: FailurePolicy): Verdict {
    if policy.FailClosed? then Deny(Str("")) else Allow
  }

  function Judge(f: Filter, hook: string, message: Object): Verdict {
    match f.evaluate(hook, message)
    case Returned(v) => v
    case Threw => ResolveFailure(f.policy)
  }

  /** One evaluation: the message a filter saw and the verdict it gave. */
  datatype Seen = Seen(message: Object, verdict: Verdict)

  /** The incremental form: each interested filter sees the message as shaped so
      far; evaluation ends at a terminal verdict or an exception. */
  function Trace(filters: seq<Filter>, hook: string, context: Context, message: Object): seq<Seen> {
    if filters == [] then []
    else if !Interested(filters[0].interest, context) then Trace(filters[1..], hook, context, message)
    else
      var v := Judge(filters[0], hook, message);
      var next := if Terminal(v) then None else ApplyOne(v, message);
      [Seen(message, v)] + if next.None? then [] else Trace(filters[1..], hook, context, next.value)
  }

  function Verdicts(trace: seq<Seen>): (r: seq<Verdict>)
    ensures |r| == |trace| && forall i :: 0 <= i < |trace| ==> r[i] == trace[i].verdict
  {
    seq(|trace|, i requires 0 <= i < |trace| => trace[i].verdict)
  }

  lemma VerdictsCons(first: Seen, rest: seq<Seen>, k: nat)
    requires k <= |rest|
    ensures Verdicts([first] + rest) == [first.verdict] + Verdicts(rest)
    ensures Verdicts([first] + rest)[..k + 1] == [first.verdict] + Verdicts(rest)[..k]
  {
  }

  lemma RefoldCons(v: Verdict, later: seq<Verdict>, id: Json, message: Object)
    requires !Terminal(v) && ApplyOne(v, message).Some?
    ensures Refold([v] + later, id, message) == Refold(later, id, ApplyOne(v, message).value)
  {
    hide ApplyOne;
    assert ([v] + later)[1..] == later;
  }

  /** A filter that is not interested is skipped; an interested one sees the message,
      and the later ones see what its verdict makes of it. */
  lemma TraceCases(filters: seq<Filter>, hook: string, context: Context, message: Object)
    ensures filters == [] ==> Trace(filters, hook, context, message) == []
    ensures filters != [] && !Interested(filters[0].interest, context) ==>
      Trace(filters, hook, context, message) == Trace(filters[1..], hook, context, message)
    ensures filters != [] && Interested(filters[0].interest, context) ==>
      var trace := Trace(filters, hook, context, message);
      && trace != [] && trace[0].message == message
      && (|trace| > 1 ==>
            && !Terminal(trace[0].verdict) && ApplyOne(trace[0].verdict, message).Some?
            && trace == [trace[0]] + Trace(filters[1..], hook, context, ApplyOne(trace[0].verdict, message).value))
  {
    hide Interested, ApplyOne, Judge, Terminal;
  }

  /** The loop before filter `i`: the verdicts are those of the trace so far, and the
      message is what the batch form makes of them. */
  ghost predicate Running(filters: seq<Filter>, hook: string, context: Context, request: Object,
                          i: nat, verdicts: seq<Verdict>, message: Object) {
    var all := Verdicts(Trace(filters, hook, context, request));
    var rest := Verdicts(Trace(if i <= |filters| then filters[i..] else [], hook, context, message));
    var id := GetOrNull(request, "id");
    && i <= |filters| && all == verdicts + rest
    && Refold(all, id, request) == Refold(rest, id, message)
  }

  lemma RunStarts(filters: seq<Filter>, hook: string, context: Context, request: Object)
    ensures Running(filters, hook, context, request, 0, [], request)
  {
    assert filters[0..] == filters;
  }

  /** One turn of the loop. */
  lemma RunStep(filters: seq<Filter>, hook: string, context: Context, request: Object,
                i: nat, verdicts: seq<Verdict>, message: Object)
    requires i < |filters| && Running(filters, hook, context, request, i, verdicts, message)
    ensures !Interested(filters[i].interest, context) ==>
      Running(filters, hook, context, request, i + 1, verdicts, message)
    ensures Interested(filters[i].interest, context) ==>
      var v := Judge(filters[i], hook, message);
      var all := Verdicts(Trace(filters, hook, context, request));
      && (Terminal(v) ==> all == verdicts + [v])
      && (!Terminal(v) && ApplyOne(v, message).Some? ==>
            Running(filters, hook, context, request, i + 1, verdicts + [v], ApplyOne(v, message).value))
      && (!Terminal(v) && ApplyOne(v, message).None? ==>
            Refold(all, GetOrNull(request, "id"), request) == Raised)
  {
    hide Interested, ApplyOne, Judge, Terminal;
    var rest := filters[i..];
    assert rest[0] == filters[i] && rest[1..] == filters[i + 1..];
    if Interested(filters[i].interest, context) {
      var v := Judge(filters[i], hook, message);
      var first := Seen(message, v);
      if !Terminal(v) && ApplyOne(v, message).Some? {
        var next := ApplyOne(v, message).value;
        var later := Trace(filters[i + 1..], hook, context, next);
        assert Trace(rest, hook, context, message) == [first] + later;
        hide Trace;
        VerdictsCons(first, later, 0);
        RefoldCons(v, Verdicts(later), GetOrNull(request, "id"), message);
        assert verdicts + ([v] + Verdicts(later)) == (verdicts + [v]) + Verdicts(later);
      } else {
        assert Trace(rest, hook, context, message) == [first];
        assert Verdicts([first]) == [v];
      }
    }
  }

  lemma RunIsOver(filters: seq<Filter>, hook: string, context: Context, request: Object,
                  verdicts: seq<Verdict>, message: Object)
    requires Running(filters, hook, context, request, |filters|, verdicts, message)
    ensures verdicts == Verdicts(Trace(filters, hook, context, request))
  {
    assert filters[|filters|..] == [];
    assert verdicts + [] == verdicts;
  }

  /** `FilterChain.run`: the incremental loop and then the batch refold. */
  method Run(filters: seq<Filter>, hook: string, request: Object) returns (outcome: Outcome)
    ensures match MessageContext(request, C2U)
            case None => outcome == Raised
            case Some(context) =>
              outcome == Refold(Verdicts(Trace(filters, hook, context, request)), GetOrNull(request, "id"), request)
  {
    hide *;
    var context := MessageContext(request, C2U);
    if context.None? {
      return Raised;
    }
    var verdicts: seq<Verdict> := [];
    var message := request;
    RunStarts(filters, hook, context.value, request);
    var i := 0;
    while i < |filters|
      invariant 0 <= i <= |filters|
      invariant Running(filters, hook, context.value, request, i, verdicts, message)
    {
      RunStep(filters, hook, context.value, request, i, verdicts, message);
      var f := filters[i];
      i := i + 1;
      if !Interested(f.interest, context.value) {
        continue;
      }
      var v := Judge(f, hook, message);
      verdicts := verdicts + [v];
      if Terminal(v) {
        outcome := ChainOutcome(verdicts, request);
        return;
      }
      var next := ApplyOne(v, message);
      if next.None? {
        return Raised;
      }
      message := next.value;
    }
    RunIsOver(filters, hook, context.value, request, verdicts, message);
    outcome := ChainOutcome(verdicts, request);
  }

  lemma FirstSeen(trace: seq<Seen>, id: Json, message: Object)
    requires trace != [] && trace[0].message == message
    ensures Refold(Verdicts(trace)[..0], id, message) == Forward(message)
    ensures |trace| == 1 ==> Verdicts(trace) == [trace[0].verdict]
  {
    hide ApplyOne;
    assert Verdicts(trace)[..0] == [];
  }

  /** Fusion: the k-th filter sees exactly what the batch form makes of the earlier
      verdicts, a terminal verdict comes last or not at all, and the refold of the
      whole list is the incremental result. */
  lemma {:induction false} Fusion(filters: seq<Filter>, hook: string, context: Context, id: Json, message: Object,
                                  k: nat)
    requires k < |Trace(filters, hook, context, message)|
    ensures var trace := Trace(filters, hook, context, message);
            && Refold(Verdicts(trace)[..k], id, message) == Forward(trace[k].message)
            && (Terminal(trace[k].verdict) ==> k == |trace| - 1)
            && (k == |trace| - 1 ==>
                  Refold(Verdicts(trace), id, message) == Refold([trace[k].verdict], id, trace[k].message))
  {
    hide *;
    TraceCases(filters, hook, context, message);
    var trace := Trace(filters, hook, context, message);
    if !Interested(filters[0].interest, context) {
      Fusion(filters[1..], hook, context, id, message, k);
    } else if k > 0 {
      var v := trace[0].verdict;
      var next := ApplyOne(v, message).value;
      var rest := Trace(filters[1..], hook, context, next);
      Fusion(filters[1..], hook, context, id, next, k - 1);
      VerdictsCons(trace[0], rest, k - 1);
      RefoldCons(v, Verdicts(rest)[..k - 1], id, message);
      RefoldCons(v, Verdicts(rest), id, message);
    } else {
      FirstSeen(trace, id, message);
    }
  }

  // ---- What a chain preserves ----

  /** `_params(message).get("name", "")`. */
  function NameOf(message: Object): Json {
    var params := GetOrNull(message, "params");
    if params.Obj? && "name" in params.fields then params.fields["name"] else Str("")
  }

  /** The parameters are a non-empty list of pairs that reads as a dictionary with
      a name in it. */
  predicate ListNamesTool(message: Object) {
    var params := GetOrNull(message, "params");
    params.Arr? && Truthy(params) && DictOf(params).Some? && "name" in DictOf(params).value &&
    DictOf(params).value["name"] != Str("")
  }

  lemma ApplyOnePreserves(v: Verdict, message: Object)
    requires ApplyOne(v, message).Some?
    ensures var next := ApplyOne(v, message).value;
            && Get(next, "id") == Get(message, "id") && Get(next, "method") == Get(message, "method")
            && (v.Allow? || !ListNamesTool(message) ==> NameOf(next) == NameOf(message))
            && (!v.Allow? ==> GetOrNull(next, "params").Obj? && (ListNamesTool(message) ==>
              NameOf(next) != NameOf(message)))
  {
  }

  /** Any chain of verdicts keeps the id and the method. It keeps the called name
      exactly unless the parameters name a tool as a list of pairs and some verdict
      makes the chain copy them. */
  lemma {:induction false} ChainPreserves(verdicts: seq<Verdict>, id: Json, message: Object)
    requires Refold(verdicts, id, message).Forward?
    ensures var out := Refold(verdicts, id, message).message;
            && Get(out, "id") == Get(message, "id") && Get(out, "method") == Get(message, "method")
            && (NameOf(out) == NameOf(message) <==>
                  !ListNamesTool(message) || forall v :: v in verdicts ==> v.Allow?)
  {
    if verdicts != [] {
      var v := verdicts[0];
      ApplyOnePreserves(v, message);
      var next := ApplyOne(v, message).value;
      ChainPreserves(verdicts[1..], id, next);
      assert verdicts == [v] + verdicts[1..];
      if v.Allow? {
        assert next == message;
      } else {
        assert !ListNamesTool(next);
        assert v in verdicts;
      }
    }
  }

  /** Whether the worker pool takes a call: its name splits to a handler's id. */
  predicate IsLocalCall(message: Object, handlers: set<string>) {
    && NameOf(message).Str?
    && Namespace.Split(NameOf(message).s).Some?
    && Namespace.Split(NameOf(message).s).value.0 in handlers
  }

  /** The pool takes exactly the calls of some handler's tool under its prefixed name. */
  lemma LocalCallMeaning(message: Object, handlers: set<string>)
    ensures IsLocalCall(message, handlers) <==>
            NameOf(message).Str? && exists handler, tool ::
              && handler in handlers && Namespace.RoutableId(handler) && tool != ""
              && NameOf(message).s == Namespace.Prefix(handler, tool)
  {
    if NameOf(message).Str? {
      var name := NameOf(message).s;
      if Namespace.Split(name).Some? {
        var (handler, tool) := Namespace.Split(name).value;
        Namespace.PrefixOfSplit(name);
        Namespace.SplitOfPrefix(handler, tool);
      }
      hide Namespace.Split, Namespace.Prefix, Namespace.RoutableId;
      forall handler, tool | handler in handlers && Namespace.RoutableId(handler) && tool != "" &&
                             name == Namespace.Prefix(handler, tool)
        ensures Namespace.Split(name) == Some((handler, tool))
      {
        Namespace.SplitOfPrefix(handler, tool);
      }
    }
  }

  /** The pool decision, taken before the chain runs, agrees with the dispatch
      after it for every `tools/call`: list parameters raise before any filter. */
  lemma PoolDecisionAgrees(filters: seq<Filter>, hook: string, request: Object, handlers: set<string>)
    requires GetOrNull(request, "method") == Str(TOOLS_CALL) && MessageContext(request, C2U).Some?
    requires var context := MessageContext(request, C2U).value;
             Refold(Verdicts(Trace(filters, hook, context, request)), GetOrNull(request, "id"), request).Forward?
    ensures var context := MessageContext(request, C2U).value;
            var out := Refold(Verdicts(Trace(filters, hook, context, request)), GetOrNull(request, "id"),
              request).message;
            IsLocalCall(out, handlers) == IsLocalCall(request, handlers) && Get(out, "id") == Get(request, "id")
  {
    var context := MessageContext(request, C2U).value;
    ChainPreserves(Verdicts(Trace(filters, hook, context, request)), GetOrNull(request, "id"), request);
  }

  /** For other methods the name can change: annotating a `prompts/get` whose
      parameters are a list of pairs turns them into an object with a name. */
  lemma AnnotatingListParamsNames()
    ensures var request: Object := map["method" := Str("prompts/get"), "params" := Arr([Arr([Str("name"),
            Str("b__p")])])];
            var out := Refold([Annotate(map[])], Null, request);
            && MessageContext(request, C2U).Some?
            && out.Forward? && NameOf(request) == Str("") && NameOf(out.message) == Str("b__p")
  {
    var items := [Arr([Str("name"), Str("b__p")])];
    assert items[..0] == [];
    assert DictOfPairs(items) == Some(map["name" := Str("b__p")]);
  }

  // ---- The outcome in the filters' own terms ----

  /** What a chain makes of a message (see `Run`). */
  function Chained(filters: seq<Filter>, hook: string, context: Context, id: Json, message: Object): Outcome {
    Refold(Verdicts(Trace(filters, hook, context, message)), id, message)
  }

  /** The policy error, written out. */
  function PolicyError(id: Json, reason: Json): Json {
    Obj(map["jsonrpc" := Str("2.0"), "id" := id, "error" := Obj(map["code" := Number("-32001"), "message" := reason])])
  }

  lemma NoFilters(hook: string, context: Context, id: Json, message: Object)
    ensures Chained([], hook, context, id, message) == Forward(message)
  {
  }

  /** An object is a dictionary already, so copying it changes nothing. */
  lemma CopiedFields(message: Object)
    ensures GetOrNull(message, "params").Obj? ==>
      && DictOf(GetOrNull(message, "params")) == Some(GetOrNull(message, "params").fields)
      && message["params" := GetOrNull(message, "params")] == message
      && var params := GetOrNull(message, "params").fields;
         GetOrNull(params, "_meta").Obj? ==>
           DictOf(GetOrNull(params, "_meta")) == Some(GetOrNull(params, "_meta").fields)
  {
  }

  lemma FirstVerdict(filters: seq<Filter>, hook: string, context: Context, message: Object)
    requires filters != [] && Interested(filters[0].interest, context)
    ensures var v := Judge(filters[0], hook, message);
            var first := [Seen(message, v)];
            Trace(filters, hook, context, message) ==
            if !Terminal(v) && ApplyOne(v, message).Some?
            then first + Trace(filters[1..], hook, context, ApplyOne(v, message).value) else first
  {
    hide Interested, Judge, ApplyOne, Terminal;
  }

  /** What the first filter of a chain does to it, by what it declares, returns and is
      configured to do when it throws. */
  lemma ChainStep(filters: seq<Filter>, hook: string, context: Context, id: Json, message: Object)
    requires filters != []
    ensures var f, rest := filters[0], filters[1..];
            var outcome := Chained(filters, hook, context, id, message);
            if !Interested(f.interest, context) then outcome == Chained(rest, hook, context, id, message)
            else match f.evaluate(hook, message)
              case Threw =>
                if f.policy == FailClosed then outcome == Blocked(PolicyError(id, Str("")), false)
                else outcome == Chained(rest, hook, context, id, message)
              case Returned(Allow) => outcome == Chained(rest, hook, context, id, message)
              case Returned(Deny(reason)) => outcome == Blocked(PolicyError(id, reason), false)
              case Returned(Quarantine(reason)) => outcome == Blocked(PolicyError(id, reason), true)
              case Returned(Mutate(arguments)) =>
                GetOrNull(message, "params").Obj? ==>
                  var params := GetOrNull(message, "params").fields;
                  outcome == Chained(rest, hook, context, id,
                    message["params" := Obj(params["arguments" := arguments])])
              case Returned(Annotate(provenance)) =>
                GetOrNull(message, "params").Obj? ==>
                  var params := GetOrNull(message, "params").fields;
                  GetOrNull(params, "_meta").Obj? ==>
                    var meta := Obj(GetOrNull(params, "_meta").fields + provenance);
                    outcome == Chained(rest, hook, context, id, message["params" := Obj(params["_meta" := meta])])
              case Returned(Other(_)) =>
                GetOrNull(message, "params").Obj? ==> outcome == Chained(rest, hook, context, id, message)
  {
    TraceCases(filters, hook, context, message);
    hide Interested, MessageContext, Trace;
    if Interested(filters[0].interest, context) {
      FirstVerdict(filters, hook, context, message);
      var v := Judge(filters[0], hook, message);
      if !Terminal(v) && ApplyOne(v, message).Some? {
        var later := Trace(filters[1..], hook, context, ApplyOne(v, message).value);
        VerdictsCons(Seen(message, v), later, 0);
        RefoldCons(v, Verdicts(later), id, message);
        CopiedFields(message);
      } else {
        assert Verdicts([Seen(message, v)]) == [v];
      }
    }
  }

  /** What the next filter sees, if the chain goes on. */
  function NextMessage(f: Filter, hook: string, context: Context, message: Object): Option<Object> {
    if !Interested(f.interest, context) then Some(message)
    else if Terminal(Judge(f, hook, message)) then None
    else ApplyOne(Judge(f, hook, message), message)
  }

  lemma HeadOutcome(filters: seq<Filter>, hook: string, context: Context, id: Json, message: Object)
    requires filters != []
    ensures NextMessage(filters[0], hook, context, message).Some? ==>
      Chained(filters, hook, context, id, message) ==
      Chained(filters[1..], hook, context, id, NextMessage(filters[0], hook, context, message).value)
  {
    TraceCases(filters, hook, context, message);
    hide Interested, Trace, Judge, ApplyOne, Terminal;
    if Interested(filters[0].interest, context) && NextMessage(filters[0], hook, context, message).Some? {
      FirstVerdict(filters, hook, context, message);
      var v := Judge(filters[0], hook, message);
      var later := Trace(filters[1..], hook, context, ApplyOne(v, message).value);
      VerdictsCons(Seen(message, v), later, 0);
      RefoldCons(v, Verdicts(later), id, message);
    }
  }

  lemma HeadStops(filters: seq<Filter>, others: seq<Filter>, hook: string, context: Context, id: Json, message: Object)
    requires filters != [] && others != [] && filters[0] == others[0]
    requires NextMessage(filters[0], hook, context, message).None?
    ensures Chained(filters, hook, context, id, message) == Chained(others, hook, context, id, message)
    ensures !Chained(filters, hook, context, id, message).Forward?
  {
    FirstVerdict(filters, hook, context, message);
    FirstVerdict(others, hook, context, message);
    hide Interested, Trace, Judge, ApplyOne;
    var v := Judge(filters[0], hook, message);
    assert Verdicts([Seen(message, v)]) == [v];
  }

  /** A chain cut in two: the later part starts from what the earlier one forwards, and
      does not matter if the earlier one blocks or raises. */
  lemma {:induction false} OutcomeSplit(before: seq<Filter>, after: seq<Filter>, hook: string, context: Context,
                                        id: Json, message: Object)
    ensures var first := Chained(before, hook, context, id, message);
            Chained(before + after, hook, context, id, message) ==
            if first.Forward? then Chained(after, hook, context, id, first.message) else first
  {
    if before == [] {
      NoFilters(hook, context, id, message);
      assert before + after == after;
    } else {
      var all := before + after;
      assert all[0] == before[0] && all[1..] == before[1..] + after;
      hide *;
      HeadOutcome(all, hook, context, id, message);
      HeadOutcome(before, hook, context, id, message);
      var next := NextMessage(before[0], hook, context, message);
      if next.Some? {
        OutcomeSplit(before[1..], after, hook, context, id, next.value);
      } else {
        HeadStops(before, all, hook, context, id, message);
      }
    }
  }

  /** A fail-closed filter that throws on the message it is shown blocks the chain,
      whatever comes before and after it. */
  lemma FailClosedBlocks(before: seq<Filter>, f: Filter, after: seq<Filter>, hook: string, context: Context,
                         id: Json, message: Object)
    requires Chained(before, hook, context, id, message).Forward?
    requires Interested(f.interest, context) && f.policy == FailClosed
    requires f.evaluate(hook, Chained(before, hook, context, id, message).message) == Threw
    ensures Chained(before + ([f] + after), hook, context, id, message) == Blocked(PolicyError(id, Str("")), false)
  {
    OutcomeSplit(before, [f] + after, hook, context, id, message);
    ChainStep([f] + after, hook, context, id, Chained(before, hook, context, id, message).message);
  }

  /** A fail-open filter that throws on whatever it is shown might as well not be there. */
  lemma FailOpenIsInvisible(before: seq<Filter>, f: Filter, after: seq<Filter>, hook: string, context: Context,
                            id: Json, message: Object)
    requires f.policy == FailOpen
    requires Chained(before, hook, context, id, message).Forward? ==>
               f.evaluate(hook, Chained(before, hook, context, id, message).message) == Threw
    ensures Chained(before + ([f] + after), hook, context, id, message) ==
            Chained(before + after, hook, context, id, message)
  {
    hide Chained;
    OutcomeSplit(before, [f] + after, hook, context, id, message);
    OutcomeSplit(before, after, hook, context, id, message);
    if Chained(before, hook, context, id, message).Forward? {
      assert ([f] + after)[1..] == after;
      ChainStep([f] + after, hook, context, id, Chained(before, hook, context, id, message).message);
    }
  }

  lemma FamilyMatch(p: string, m: string)
    requires p != "*"
    ensures MimeMatch(p, m) <==> p == m || exists family, sub :: p == family + "/*" && m == family + "/" + sub
  {
    if |p| >= 2 && p[|p| - 2..] == "/*" && p[..|p| - 1] <= m {
      var family, sub := p[..|p| - 2], m[|p| - 1..];
      assert p[..|p| - 1] == family + "/";
      assert p == family + "/*" && m == family + "/" + sub;
    }
    forall family, sub | p == family + "/*" && m == family + "/" + sub ensures MimeMatch(p, m) {
      assert p[|p| - 2..] == "/*" && p[..|p| - 1] == family + "/";
      assert m[..|p| - 1] == family + "/";
    }
  }

  /** A filter is interested if and only if each of the four things it declares is
      absent, is the wildcard, or names what the message has; content types may also be
      named by a `type` followed by a slash and a star. */
  lemma InterestMeaning(interest: Interest, context: Context)
    ensures Interested(interest, context) <==>
      && (interest.methods == [] || "*" in interest.methods ||
          exists m :: m in interest.methods && context.method' == Str(m))
      && (interest.directions == [] || "*" in interest.directions || context.direction in interest.directions)
      && (interest.tools == [] || "*" in interest.tools || exists t :: t in interest.tools && context.tool == Str(t))
      && (interest.contentTypes == [] || "*" in interest.contentTypes ||
          exists p, m :: p in interest.contentTypes && m in context.contentTypes &&
            (p == m || exists family, sub :: p == family + "/*" && m == family + "/" + sub))
  {
    forall p, m | p in interest.contentTypes && m in context.contentTypes && "*" !in interest.contentTypes
      ensures MimeMatch(p, m) <==> p == m || exists family, sub :: p == family + "/*" && m == family + "/" + sub
    {
      FamilyMatch(p, m);
    }
  }

  /** Describing a message raises for a `tools/call` whose parameters are neither empty
      nor an object, for content that cannot be traversed, and for a block whose media
      type is neither empty nor a string. */
  lemma ContextRaises(message: Object, direction: string)
    ensures MessageContext(message, direction).None? <==>
            || (Get(message, "method") == Some(Str("tools/call")) && "params" in message &&
                Truthy(message["params"]) && !message["params"].Obj?)
            || Content.Blocks(Obj(message)).None?
            || (exists b :: b in Content.Blocks(Obj(message)).value && Truthy(b.mime) && !b.mime.Str?)
  {
    hide Content.Blocks;
  }

  /** What a message is described by: its method, the tool a `tools/call` names, and
      the media types of its content. */
  lemma ContextMeaning(message: Object, direction: string)
    requires MessageContext(message, direction).Some? && Content.Blocks(Obj(message)).Some?
    ensures var context := MessageContext(message, direction).value;
            && context.method' == (if "method" in message then message["method"] else Null)
            && context.direction == direction
            && (context.method' != Str("tools/call") ==> context.tool == Null)
            && (context.method' == Str("tools/call") && GetOrNull(message, "params").Obj? ==>
                  context.tool == GetOrNull(GetOrNull(message, "params").fields, "name"))
            && (forall m :: m in context.contentTypes <==>
                  m != "" && exists b :: b in Content.Blocks(Obj(message)).value && b.mime == Str(m))
  {
    hide Content.Blocks;
  }
}
