/** The authorization engine (engine.go, types.go): ordered rules, each with
    conditions, a match mode and an action. Pattern, address and claim formatting
    are library calls, held in a Library of arbitrary functions. */
module Authz {
  import opened Octets

  type Text = bytes

  const STAR: Text := [42]
  const SLASH: byte := 47

  datatype Operation = WhoIs | ReadProperty | ReadPropertyMultiple | WriteProperty | ListDevices

  datatype Permission = NoPermission | ReadOnly | ReadWrite | OtherPermission(text: Text)

  datatype MatchMode = MatchNone | MatchNotAll | MatchAny | MatchAll | OtherMode(text: Text)

  datatype Action = AllowNow | DenyNow | Allow | Deny | OtherAction(text: Text)
  {
    predicate IsAllow() { Allow? || AllowNow? }
    predicate IsNow() { AllowNow? || DenyNow? }
  }

  datatype ConditionType = OnDevice | OnIP | OnJWT | OnOperation | OnToken | OnVariable | OtherType(text: Text)

  datatype Condition = Condition(kind: ConditionType, field: Text, value: Text)

  datatype Rule = Rule(
    name: string, conditions: seq<Condition>, mode: MatchMode, permission: Permission, action: Action)

  /** A decoded claim: a string, an array (of strings and of other things), or anything else. */
  datatype Claim = StringClaim(text: Text) | ArrayClaim(items: seq<Option<Text>>) | OtherClaim(printed: Text)

  datatype Request = Request(
    device: Text, clientIP: Option<Text>, operation: Operation, tokenName: Text,
    claims: Option<map<Text, Claim>>, objectName: Text)

  datatype Decision = Decision(allowed: bool, permission: Permission, ruleName: string)

  const IMPLICIT_DEFAULT := Decision(false, NoPermission, "<implicit-default>")

  /** path.Match, net.ParseCIDR with Contains, IP.String, and the text of an operation. */
  datatype Library = Library(
    glob: (Text, Text) -> bool, inCIDR: (Text, Text) -> bool, ipText: Text -> Text, operationText: Operation -> Text)

  // ----- one condition

  function MatchWildcard(lib: Library, pattern: Text, value: Text): bool { pattern == STAR || lib.glob(pattern, value) }

  function MatchClaim(lib: Library, claim: Claim, pattern: Text): bool {
    match claim
    case StringClaim(text) => MatchWildcard(lib, pattern, text)
    case ArrayClaim(items) =>
      exists i :: 0 <= i < |items| && items[i].Some? && MatchWildcard(lib, pattern, items[i].value)
    case OtherClaim(printed) => MatchWildcard(lib, pattern, printed)
  }

  predicate MatchCondition(lib: Library, c: Condition, req: Request) {
    match c.kind
    case OnDevice => MatchWildcard(lib, c.value, req.device)
    case OnIP =>
      req.clientIP.Some?
      && (if SLASH in c.value then lib.inCIDR(c.value, req.clientIP.value)
          else MatchWildcard(lib, c.value, lib.ipText(req.clientIP.value)))
    case OnJWT => req.claims.Some? && c.field in req.claims.value && MatchClaim(lib, req.claims.value[c.field], c.value)
    case OnOperation => MatchWildcard(lib, c.value, lib.operationText(req.operation))
    case OnToken => req.tokenName != [] && MatchWildcard(lib, c.value, req.tokenName)
    case OnVariable => req.objectName != [] && MatchWildcard(lib, c.value, req.objectName)
    case OtherType(_) => false
  }

  /** The pattern is "*", or the library's matcher takes it. */
  predicate Takes(lib: Library, pattern: Text, value: Text) { pattern == [42] || lib.glob(pattern, value) }

  /** What each kind of condition looks at. One on an absent address, token, claim
      or name never matches; one on an address is a network if it has a slash. */
  lemma ConditionMeaning(lib: Library, c: Condition, req: Request)
    ensures MatchCondition(lib, c, req) <==>
      match c.kind
      case OnDevice => Takes(lib, c.value, req.device)
      case OnIP =>
        exists ip :: req.clientIP == Some(ip)
                     && (if 47 in c.value then lib.inCIDR(c.value, ip) else Takes(lib, c.value, lib.ipText(ip)))
      case OnJWT =>
        && req.claims.Some? && c.field in req.claims.value
        && (match req.claims.value[c.field]
            case StringClaim(text) => Takes(lib, c.value, text)
            case ArrayClaim(items) => exists text :: Some(text) in items && Takes(lib, c.value, text)
            case OtherClaim(printed) => Takes(lib, c.value, printed))
      case OnOperation => Takes(lib, c.value, lib.operationText(req.operation))
      case OnToken => req.tokenName != [] && Takes(lib, c.value, req.tokenName)
      case OnVariable => req.objectName != [] && Takes(lib, c.value, req.objectName)
      case OtherType(_) => false
  {
    if c.kind.OnJWT? && req.claims.Some? && c.field in req.claims.value && req.claims.value[c.field].ArrayClaim? {
      ItemTaken(lib, req.claims.value[c.field].items, c.value);
    }
  }

  lemma ItemTaken(lib: Library, items: seq<Option<Text>>, pattern: Text)
    ensures MatchClaim(lib, ArrayClaim(items), pattern) <==>
      exists text :: Some(text) in items && Takes(lib, pattern, text)
  {
    if MatchClaim(lib, ArrayClaim(items), pattern) {
      var i :| 0 <= i < |items| && items[i].Some? && MatchWildcard(lib, pattern, items[i].value);
      assert Some(items[i].value) in items && Takes(lib, pattern, items[i].value);
    }
    if text :| Some(text) in items && Takes(lib, pattern, text) {
      var i :| 0 <= i < |items| && items[i] == Some(text);
      assert MatchWildcard(lib, pattern, items[i].value);
    }
  }

  // ----- one rule

  function Matched(lib: Library, cs: seq<Condition>, req: Request): nat {
    if cs == [] then 0
    else Matched(lib, cs[..|cs| - 1], req) + (if MatchCondition(lib, cs[|cs| - 1], req) then 1 else 0)
  }

  predicate ModeApplies(mode: MatchMode, matched: nat, total: nat) {
    match mode
    case MatchAll => matched == total
    case MatchAny => matched > 0
    case MatchNone => matched == 0
    case MatchNotAll => matched < total
    case OtherMode(_) => false
  }

  predicate Applies(lib: Library, rule: Rule, req: Request) {
    ModeApplies(rule.mode, Matched(lib, rule.conditions, req), |rule.conditions|)
  }

  lemma {:induction false} MatchedCounts(lib: Library, cs: seq<Condition>, req: Request)
    ensures Matched(lib, cs, req) <= |cs|
    ensures Matched(lib, cs, req) == |cs| <==> forall i :: 0 <= i < |cs| ==> MatchCondition(lib, cs[i], req)
    ensures Matched(lib, cs, req) == 0 <==> forall i :: 0 <= i < |cs| ==> !MatchCondition(lib, cs[i], req)
  {
    hide MatchCondition;
    if cs != [] {
      var init := cs[..|cs| - 1];
      MatchedCounts(lib, init, req);
      assert forall i :: 0 <= i < |init| ==> init[i] == cs[i];
    }
  }

  /** What the counting means: a mode is a quantifier over the rule's conditions. */
  lemma ModeMeaning(lib: Library, rule: Rule, req: Request)
    ensures var cs := rule.conditions;
            Applies(lib, rule, req) <==>
              match rule.mode
              case MatchAll => forall i :: 0 <= i < |cs| ==> MatchCondition(lib, cs[i], req)
              case MatchAny => exists i :: 0 <= i < |cs| && MatchCondition(lib, cs[i], req)
              case MatchNone => forall i :: 0 <= i < |cs| ==> !MatchCondition(lib, cs[i], req)
              case MatchNotAll => exists i :: 0 <= i < |cs| && !MatchCondition(lib, cs[i], req)
              case OtherMode(_) => false
  {
    hide MatchCondition;
    MatchedCounts(lib, rule.conditions, req);
  }

  // ----- the rule list

  function Outcome(rule: Rule): Decision { Decision(rule.action.IsAllow(), rule.permission, rule.name) }

  /** The loop of evaluate, from a provisional result. */
  function EvaluateFrom(lib: Library, req: Request, rules: seq<Rule>, provisional: Decision): Decision {
    if rules == [] then provisional
    else if !Applies(lib, rules[0], req) then EvaluateFrom(lib, req, rules[1..], provisional)
    else if rules[0].action.IsNow() then Outcome(rules[0])
    else EvaluateFrom(lib, req, rules[1..], Outcome(rules[0]))
  }

  function Evaluate(lib: Library, req: Request, rules: seq<Rule>): Decision {
    EvaluateFrom(lib, req, rules, IMPLICIT_DEFAULT)
  }

  /** The rule applies and ends the evaluation. */
  predicate Decisive(lib: Library, req: Request, rule: Rule) {
    Applies(lib, rule, req) && (rule.action == AllowNow || rule.action == DenyNow)
  }

  /** Rule i has the last word: it applies, no decisive rule comes before it, and it
      is decisive itself or nothing after it applies. */
  predicate Decides(lib: Library, req: Request, rules: seq<Rule>, i: nat)
    requires i < |rules|
  {
    && Applies(lib, rules[i], req)
    && (forall j :: 0 <= j < i ==> !Decisive(lib, req, rules[j]))
    && (Decisive(lib, req, rules[i]) || forall j :: i < j < |rules| ==> !Applies(lib, rules[j], req))
  }

  predicate NoneApplies(lib: Library, req: Request, rules: seq<Rule>) {
    forall j :: 0 <= j < |rules| ==> !Applies(lib, rules[j], req)
  }

  lemma {:induction false} EvaluateFromClosedForm(lib: Library, req: Request, rules: seq<Rule>, provisional: Decision)
    ensures NoneApplies(lib, req, rules) ==> EvaluateFrom(lib, req, rules, provisional) == provisional
    ensures !NoneApplies(lib, req, rules) ==>
      exists i :: 0 <= i < |rules| && Decides(lib, req, rules, i)
                  && EvaluateFrom(lib, req, rules, provisional) == Outcome(rules[i])
  {
    hide Applies;
    if rules != [] && !Decisive(lib, req, rules[0]) {
      var next := if Applies(lib, rules[0], req) then Outcome(rules[0]) else provisional;
      EvaluateFromClosedForm(lib, req, rules[1..], next);
      assert rules == [rules[0]] + rules[1..];
      if NoneApplies(lib, req, rules[1..]) {
        if Applies(lib, rules[0], req) { assert Decides(lib, req, rules, 0); }
      } else {
        var i :| 0 <= i < |rules[1..]| && Decides(lib, req, rules[1..], i)
                 && EvaluateFrom(lib, req, rules[1..], next) == Outcome(rules[1..][i]);
        assert Applies(lib, rules[i + 1], req);
        assert Decides(lib, req, rules, i + 1);
      }
    } else if rules != [] {
      assert Decides(lib, req, rules, 0);
    }
  }

  /** What the rule says: to allow or not, with its own permission and name. */
  predicate SaidBy(d: Decision, rule: Rule) {
    && (d.allowed <==> rule.action == Allow || rule.action == AllowNow)
    && d.permission == rule.permission && d.ruleName == rule.name
  }

  /** The closed form: if any rule applies, exactly one has the last word, and the
      decision is what it says; otherwise the decision is to deny, by no rule. */
  lemma EvaluateClosedForm(lib: Library, req: Request, rules: seq<Rule>)
    ensures NoneApplies(lib, req, rules) ==>
      Evaluate(lib, req, rules) == Decision(false, NoPermission, "<implicit-default>")
    ensures !NoneApplies(lib, req, rules) ==> exists i :: 0 <= i < |rules| && Decides(lib, req, rules, i)
    ensures forall i :: 0 <= i < |rules| && Decides(lib, req, rules, i) ==> SaidBy(Evaluate(lib, req, rules), rules[i])
    ensures forall i, k :: 0 <= i < |rules| && 0 <= k < |rules| ==>
      (Decides(lib, req, rules, i) && Decides(lib, req, rules, k) ==> i == k)
  {
    hide Applies;
    EvaluateFromClosedForm(lib, req, rules, IMPLICIT_DEFAULT);
    forall i, k | 0 <= i < |rules| && 0 <= k < |rules| && Decides(lib, req, rules, i) && Decides(lib, req, rules, k)
      ensures i == k
    {
      OneDecides(lib, req, rules, i, k);
    }
    forall i | 0 <= i < |rules| && Decides(lib, req, rules, i) ensures SaidBy(Evaluate(lib, req, rules), rules[i]) {
      assert !NoneApplies(lib, req, rules);
    }
  }

  lemma OneDecides(lib: Library, req: Request, rules: seq<Rule>, i: nat, k: nat)
    requires i < |rules| && k < |rules| && Decides(lib, req, rules, i) && Decides(lib, req, rules, k)
    ensures i == k
  {
    hide Applies;
    assert Decisive(lib, req, rules[i]) <==> rules[i].action.IsNow();
    assert Decisive(lib, req, rules[k]) <==> rules[k].action.IsNow();
  }

  /** Rule lists compose: a decisive rule of the first list settles the matter; else
      the second has the say if any of its rules applies; else the first. */
  lemma {:induction false} EvaluateFromConcat(lib: Library, req: Request, a: seq<Rule>, b: seq<Rule>,
                                              provisional: Decision)
    ensures EvaluateFrom(lib, req, a + b, provisional)
      == if exists i :: 0 <= i < |a| && Decisive(lib, req, a[i]) then EvaluateFrom(lib, req, a, provisional)
         else EvaluateFrom(lib, req, b, EvaluateFrom(lib, req, a, provisional))
    decreases |a|
  {
    hide Applies;
    if a == [] {
      assert a + b == b;
    } else {
      assert (a + b)[1..] == a[1..] + b;
      var next := if Applies(lib, a[0], req) then Outcome(a[0]) else provisional;
      EvaluateFromConcat(lib, req, a[1..], b, next);
      assert a == [a[0]] + a[1..];
      if !Decisive(lib, req, a[0]) && exists i :: 0 <= i < |a[1..]| && Decisive(lib, req, a[1..][i]) {
        var i :| 0 <= i < |a[1..]| && Decisive(lib, req, a[1..][i]);
        assert Decisive(lib, req, a[i + 1]);
      }
    }
  }

  lemma EvaluateConcat(lib: Library, req: Request, a: seq<Rule>, b: seq<Rule>)
    ensures Evaluate(lib, req, a + b)
      == if exists i :: 0 <= i < |a| && Decisive(lib, req, a[i]) then Evaluate(lib, req, a)
         else if NoneApplies(lib, req, b) then Evaluate(lib, req, a)
         else Evaluate(lib, req, b)
  {
    hide Applies, EvaluateFrom;
    EvaluateFromConcat(lib, req, a, b, IMPLICIT_DEFAULT);
    EvaluateFromClosedForm(lib, req, b, IMPLICIT_DEFAULT);
    EvaluateFromClosedForm(lib, req, b, Evaluate(lib, req, a));
    EvaluateClosedForm(lib, req, b);
    if !NoneApplies(lib, req, b) {
      var i :| 0 <= i < |b| && Decides(lib, req, b, i)
               && EvaluateFrom(lib, req, b, Evaluate(lib, req, a)) == Outcome(b[i]);
    }
  }

  // ----- the trace

  /** A condition of a rule looked at, and whether it matched. */
  datatype ConditionTrace = ConditionTrace(condition: Condition, matched: bool)

  datatype RuleTrace = RuleTrace(rule: Rule, conditions: seq<ConditionTrace>, applies: bool)

  function Traced(lib: Library, cs: seq<Condition>, req: Request): seq<ConditionTrace> {
    if cs == [] then []
    else Traced(lib, cs[..|cs| - 1], req) + [ConditionTrace(cs[|cs| - 1], MatchCondition(lib, cs[|cs| - 1], req))]
  }

  /** Explain's trace: every rule up to and including the first decisive one. */
  function Trace(lib: Library, req: Request, rules: seq<Rule>): seq<RuleTrace> {
    if rules == [] then []
    else
      [RuleTrace(rules[0], Traced(lib, rules[0].conditions, req), Applies(lib, rules[0], req))]
      + (if Decisive(lib, req, rules[0]) then [] else Trace(lib, req, rules[1..]))
  }

  lemma {:induction false} TracedConditions(lib: Library, cs: seq<Condition>, req: Request)
    ensures |Traced(lib, cs, req)| == |cs|
    ensures forall i :: 0 <= i < |cs| ==>
      Traced(lib, cs, req)[i] == ConditionTrace(cs[i], MatchCondition(lib, cs[i], req))
  {
    hide MatchCondition;
    if cs != [] { TracedConditions(lib, cs[..|cs| - 1], req); }
  }

  /** Rule i was looked at: nothing before it is decisive. */
  predicate LookedAt(lib: Library, req: Request, rules: seq<Rule>, i: nat)
    requires i <= |rules|
  {
    forall j :: 0 <= j < i ==> !Decisive(lib, req, rules[j])
  }

  /** The trace is exactly of the rules looked at, in order, with each rule's own
      verdict and each of its conditions' own. */
  lemma {:induction false} TraceIsThePrefix(lib: Library, req: Request, rules: seq<Rule>)
    ensures var t := Trace(lib, req, rules);
            && |t| <= |rules|
            && (forall i :: 0 <= i < |rules| ==> (i < |t| <==> LookedAt(lib, req, rules, i)))
            && (forall i :: 0 <= i < |t| ==> t[i].rule == rules[i] && t[i].applies == Applies(lib, rules[i], req))
            && (forall i :: 0 <= i < |t| ==> t[i].conditions == Traced(lib, rules[i].conditions, req))
  {
    hide Applies, Traced;
    if rules != [] {
      TraceIsThePrefix(lib, req, rules[1..]);
      var t := Trace(lib, req, rules);
      assert rules == [rules[0]] + rules[1..];
      forall i | 0 <= i < |rules| ensures i < |t| <==> LookedAt(lib, req, rules, i) {
        if i > 0 {
          LookedAtTail(lib, req, rules, i);
        }
      }
    }
  }

  /** The rule that decides is the last one in the trace that applies. */
  lemma DeciderIsLastTraced(lib: Library, req: Request, rules: seq<Rule>, i: nat)
    requires i < |rules| && Decides(lib, req, rules, i)
    ensures var t := Trace(lib, req, rules);
            i < |t| && t[i].applies && forall j :: i < j < |t| ==> !t[j].applies
  {
    hide Applies, Trace;
    TraceIsThePrefix(lib, req, rules);
    assert LookedAt(lib, req, rules, i);
    var t := Trace(lib, req, rules);
    forall j | i < j < |t| ensures !t[j].applies {
      assert LookedAt(lib, req, rules, j);
      assert !Decisive(lib, req, rules[i]);
    }
  }

  lemma LookedAtTail(lib: Library, req: Request, rules: seq<Rule>, i: nat)
    requires 0 < i <= |rules|
    ensures LookedAt(lib, req, rules, i) <==> !Decisive(lib, req, rules[0]) && LookedAt(lib, req, rules[1..], i - 1)
  {
    hide Decisive;
    assert forall j :: 0 <= j < i - 1 ==> rules[1..][j] == rules[j + 1];
    assert forall j :: 0 < j < i ==> rules[j] == rules[1..][j - 1];
  }

  // ----- names

  predicate UsesCondition(rules: seq<Rule>, kind: ConditionType) {
    exists i, j :: 0 <= i < |rules| && 0 <= j < |rules[i].conditions| && rules[i].conditions[j].kind == kind
  }

  /** What needsObjectName is for: without a condition on names, decisions do not
      depend on the name. */
  lemma {:induction false} DecisionIgnoresName(lib: Library, req: Request, rules: seq<Rule>, name: Text,
                                               provisional: Decision)
    requires !UsesCondition(rules, OnVariable)
    ensures EvaluateFrom(lib, req.(objectName := name), rules, provisional)
         == EvaluateFrom(lib, req, rules, provisional)
    decreases |rules|
  {
    if rules != [] {
      assert forall j :: 0 <= j < |rules[0].conditions| ==> rules[0].conditions[j].kind != OnVariable;
      MatchedIgnoresName(lib, req, rules[0].conditions, name);
      forall i, j | 0 <= i < |rules[1..]| && 0 <= j < |rules[1..][i].conditions|
        ensures rules[1..][i].conditions[j].kind != OnVariable
      {
        assert rules[i + 1].conditions[j].kind != OnVariable;
      }
      hide Matched, UsesCondition;
      DecisionIgnoresName(lib, req, rules[1..], name, provisional);
      DecisionIgnoresName(lib, req, rules[1..], name, Outcome(rules[0]));
    }
  }

  lemma {:induction false} MatchedIgnoresName(lib: Library, req: Request, cs: seq<Condition>, name: Text)
    requires forall j :: 0 <= j < |cs| ==> cs[j].kind != OnVariable
    ensures Matched(lib, cs, req.(objectName := name)) == Matched(lib, cs, req)
  {
    if cs != [] { MatchedIgnoresName(lib, req, cs[..|cs| - 1], name); }
  }

  /** The rules with every condition on names replaced by one that never matches. */
  function Blind(rules: seq<Rule>): seq<Rule> {
    if rules == [] then [] else [rules[0].(conditions := BlindConditions(rules[0].conditions))] + Blind(rules[1..])
  }

  function BlindConditions(cs: seq<Condition>): seq<Condition> {
    if cs == [] then [] else BlindConditions(cs[..|cs| - 1]) + [BlindCondition(cs[|cs| - 1])]
  }

  function BlindCondition(c: Condition): Condition { if c.kind.OnVariable? then c.(kind := OtherType([])) else c }

  lemma ConditionBlind(lib: Library, req: Request, c: Condition)
    ensures MatchCondition(lib, c, req.(objectName := [])) == MatchCondition(lib, BlindCondition(c), req)
  {
  }

  lemma {:induction false} MatchedBlind(lib: Library, req: Request, cs: seq<Condition>)
    ensures |BlindConditions(cs)| == |cs|
    ensures Matched(lib, cs, req.(objectName := [])) == Matched(lib, BlindConditions(cs), req)
  {
    hide MatchCondition, BlindCondition;
    if cs != [] {
      var init := cs[..|cs| - 1];
      MatchedBlind(lib, req, init);
      ConditionBlind(lib, req, cs[|cs| - 1]);
      assert BlindConditions(cs)[..|cs| - 1] == BlindConditions(init);
    }
  }

  /** Exactly what judging without a name amounts to, for every rule list: judging
      by rules whose conditions on names never match. So leaving the name out is
      right just when that gives the same decision. */
  lemma {:induction false} NamelessIsBlind(lib: Library, req: Request, rules: seq<Rule>, provisional: Decision)
    ensures EvaluateFrom(lib, req.(objectName := []), rules, provisional)
         == EvaluateFrom(lib, req, Blind(rules), provisional)
    decreases |rules|
  {
    if rules != [] {
      MatchedBlind(lib, req, rules[0].conditions);
      hide Matched, BlindConditions;
      assert Blind(rules)[1..] == Blind(rules[1..]);
      NamelessIsBlind(lib, req, rules[1..], provisional);
      NamelessIsBlind(lib, req, rules[1..], Outcome(rules[0]));
    }
  }

  /** A rule all of whose conditions must match, one of them on the name. */
  predicate KeyedOnName(rule: Rule) {
    rule.mode.MatchAll? && exists i :: 0 <= i < |rule.conditions| && rule.conditions[i].kind.OnVariable?
  }

  /** In particular, wherever a rule keyed on a name stands, a nameless judgement
      skips it, while judging by the name ends at it when it is decisive. */
  lemma NamelessSkipsKeyedRule(lib: Library, req: Request, a: seq<Rule>, rule: Rule, b: seq<Rule>)
    requires KeyedOnName(rule)
    ensures Evaluate(lib, req.(objectName := []), a + ([rule] + b)) == Evaluate(lib, req.(objectName := []), a + b)
    ensures Decisive(lib, req, rule) && (forall i :: 0 <= i < |a| ==> !Decisive(lib, req, a[i])) ==>
      SaidBy(Evaluate(lib, req, a + ([rule] + b)), rule)
  {
    var nameless := req.(objectName := []);
    ModeMeaning(lib, rule, nameless);
    assert !Applies(lib, rule, nameless) by {
      var i :| 0 <= i < |rule.conditions| && rule.conditions[i].kind.OnVariable?;
      assert !MatchCondition(lib, rule.conditions[i], nameless);
    }
    hide Applies;
    EvaluateFromConcat(lib, nameless, a, [rule] + b, IMPLICIT_DEFAULT);
    EvaluateFromConcat(lib, nameless, a, b, IMPLICIT_DEFAULT);
    EvaluateFromConcat(lib, req, a, [rule] + b, IMPLICIT_DEFAULT);
    assert ([rule] + b)[1..] == b;
  }

  // ----- the engine's loops

  /** matchClaimValue: any string item of an array claim may match. */
  method MatchClaimValue(lib: Library, claim: Claim, pattern: Text) returns (m: bool)
    ensures m == MatchClaim(lib, claim, pattern)
  {
    match claim {
      case StringClaim(text) => m := MatchWildcard(lib, pattern, text);
      case OtherClaim(printed) => m := MatchWildcard(lib, pattern, printed);
      case ArrayClaim(items) =>
        var i := 0;
        while i < |items|
          invariant 0 <= i <= |items|
          invariant forall j :: 0 <= j < i && items[j].Some? ==> !MatchWildcard(lib, pattern, items[j].value)
        {
          if items[i].Some? && MatchWildcard(lib, pattern, items[i].value) {
            return true;
          }
          i := i + 1;
        }
        m := false;
    }
  }

  /** evaluateConditions: the conditions' verdicts and the rule's. */
  method EvaluateConditions(lib: Library, rule: Rule, req: Request, tracing: bool)
    returns (applies: bool, conditions: seq<ConditionTrace>)
    ensures applies == Applies(lib, rule, req)
    ensures conditions == if tracing then Traced(lib, rule.conditions, req) else []
  {
    hide MatchCondition;
    var matched, k := 0, 0;
    var cs := rule.conditions;
    conditions := [];
    while k < |cs|
      invariant 0 <= k <= |cs|
      invariant matched == Matched(lib, cs[..k], req)
      invariant conditions == if tracing then Traced(lib, cs[..k], req) else []
    {
      assert cs[..k + 1][..k] == cs[..k];
      var m := MatchCondition(lib, cs[k], req);
      if m {
        matched := matched + 1;
      }
      if tracing {
        conditions := conditions + [ConditionTrace(cs[k], m)];
      }
      k := k + 1;
    }
    assert cs[..k] == cs;
    applies := ModeApplies(rule.mode, matched, |cs|);
  }

  /** evaluate: Evaluate without tracing, Explain with it. */
  method EvaluateRules(lib: Library, req: Request, rules: seq<Rule>, tracing: bool)
    returns (result: Decision, trace: seq<RuleTrace>)
    ensures result == Evaluate(lib, req, rules)
    ensures trace == if tracing then Trace(lib, req, rules) else []
  {
    hide Applies, Traced;
    result, trace := IMPLICIT_DEFAULT, [];
    var i := 0;
    while i < |rules|
      invariant 0 <= i <= |rules|
      invariant Evaluate(lib, req, rules) == EvaluateFrom(lib, req, rules[i..], result)
      invariant tracing ==> Trace(lib, req, rules) == trace + Trace(lib, req, rules[i..])
      invariant !tracing ==> trace == []
    {
      var rule := rules[i];
      assert rules[i..][0] == rule && rules[i..][1..] == rules[i + 1..];
      var applies, conditions := EvaluateConditions(lib, rule, req, tracing);
      ghost var before := trace;
      if tracing {
        trace := trace + [RuleTrace(rule, conditions, applies)];
        TraceStep(lib, req, before, rules[i..]);
      }
      i := i + 1;
      if applies {
        result := Outcome(rule);
        if rule.action.IsNow() {
          return;
        }
      }
    }
    assert rules[i..] == [];
  }

  lemma TraceStep(lib: Library, req: Request, before: seq<RuleTrace>, rules: seq<Rule>)
    requires rules != []
    ensures var first := RuleTrace(rules[0], Traced(lib, rules[0].conditions, req), Applies(lib, rules[0], req));
            && (Decisive(lib, req, rules[0]) ==> before + Trace(lib, req, rules) == before + [first])
            && (!Decisive(lib, req, rules[0]) ==>
                  before + Trace(lib, req, rules) == before + [first] + Trace(lib, req, rules[1..]))
  {
    hide Applies, Traced;
  }

  method FindCondition(rules: seq<Rule>, kind: ConditionType) returns (uses: bool)
    ensures uses == UsesCondition(rules, kind)
    ensures uses <==> exists rule, c :: rule in rules && c in rule.conditions && c.kind == kind
  {
    var i := 0;
    while i < |rules|
      invariant 0 <= i <= |rules|
      invariant forall m, j :: 0 <= m < i && 0 <= j < |rules[m].conditions| ==> rules[m].conditions[j].kind != kind
    {
      var k := 0;
      while k < |rules[i].conditions|
        invariant 0 <= k <= |rules[i].conditions|
        invariant forall j :: 0 <= j < k ==> rules[i].conditions[j].kind != kind
      {
        if rules[i].conditions[k].kind == kind {
          return true;
        }
        k := k + 1;
      }
      i := i + 1;
    }
    return false;
  }
}
