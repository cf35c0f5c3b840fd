/** Who may see and touch which variable (middleware.go, handlers.go): the decisions
    made with the rule engine and the variable cache, and the filtered object-list. */
module Visibility {
  import opened Octets
  import opened Values
  import opened Metadata
  import opened Enumeration
  import opened Authz
  import Cache

  const DEVICE_OBJECT: uint32 := 8

  datatype Access = AccessNone | AccessReadOnly | AccessReadWrite

  /** needsNames is what UsesCondition found when the server was made. */
  datatype Server = Server(lib: Library, rules: seq<Rule>, needsNames: bool)

  predicate ServerOk(s: Server) { s.needsNames == UsesCondition(s.rules, OnVariable) }

  datatype Caller = Caller(bearer: Name, req: Request)

  function RequiredPermission(op: Operation): Permission { if op.WriteProperty? then ReadWrite else ReadOnly }

  predicate Allowed(s: Server, c: Caller, name: Name, op: Operation) {
    var d := Evaluate(s.lib, c.req.(operation := op, objectName := name), s.rules);
    d.allowed && (RequiredPermission(op) != ReadWrite || d.permission == ReadWrite)
  }

  function VariableAccess(s: Server, c: Caller, name: Name): Access {
    if !Allowed(s, c, name, ReadProperty) then AccessNone
    else if Allowed(s, c, name, WriteProperty) then AccessReadWrite
    else AccessReadOnly
  }

  /** The decision of the rules on an operation, judged by a name. */
  function Judged(s: Server, c: Caller, name: Name, op: Operation): Decision {
    Evaluate(s.lib, Request(c.req.device, c.req.clientIP, op, c.req.tokenName, c.req.claims, name), s.rules)
  }

  /** Writing takes a grant of readwrite; anything else takes any grant. */
  lemma AllowedMeaning(s: Server, c: Caller, name: Name, op: Operation)
    ensures Allowed(s, c, name, op) <==>
      Judged(s, c, name, op).allowed && (op == WriteProperty ==> Judged(s, c, name, op).permission == ReadWrite)
  {
    hide Evaluate;
    assert c.req.(operation := op, objectName := name)
        == Request(c.req.device, c.req.clientIP, op, c.req.tokenName, c.req.claims, name);
  }

  /** A variable is visible if it may be read, and readwrite if it may be written
      too; a readonly grant never makes it so. */
  lemma AccessMeaning(s: Server, c: Caller, name: Name)
    ensures var read, write := Judged(s, c, name, ReadProperty), Judged(s, c, name, WriteProperty);
            && (VariableAccess(s, c, name) == AccessNone <==> !read.allowed)
            && (VariableAccess(s, c, name) == AccessReadWrite <==>
                  read.allowed && write.allowed && write.permission == ReadWrite)
            && (VariableAccess(s, c, name) == AccessReadOnly <==>
                  read.allowed && !(write.allowed && write.permission == ReadWrite))
  {
    hide Judged, Allowed;
    AllowedMeaning(s, c, name, ReadProperty);
    AllowedMeaning(s, c, name, WriteProperty);
  }

  // ----- the name-free fast path

  /** When no rule looks at names, every name gives the same verdict. */
  lemma AllowedIgnoresName(s: Server, c: Caller, name: Name, other: Name, op: Operation)
    requires ServerOk(s) && !s.needsNames
    ensures Allowed(s, c, name, op) == Allowed(s, c, other, op)
  {
    var req := c.req.(operation := op);
    DecisionIgnoresName(s.lib, req, s.rules, name, IMPLICIT_DEFAULT);
    DecisionIgnoresName(s.lib, req, s.rules, other, IMPLICIT_DEFAULT);
  }

  lemma UniformAccess(s: Server, c: Caller, name: Name)
    requires ServerOk(s) && !s.needsNames
    ensures VariableAccess(s, c, name) == VariableAccess(s, c, [])
  {
    hide Allowed;
    AllowedIgnoresName(s, c, name, [], ReadProperty);
    AllowedIgnoresName(s, c, name, [], WriteProperty);
  }

  // ----- authorizing a request about one variable

  datatype Verdict = Granted | NeedsReadWrite | Unauthenticated | Forbidden | CannotEnumerate(failure: Failure)

  function Denied(c: Caller): Verdict { if c.bearer == [] then Unauthenticated else Forbidden }

  /** check */
  function Check(s: Server, c: Caller, name: Name, op: Operation): Verdict {
    if Allowed(s, c, name, op) then Granted
    else if RequiredPermission(op) == ReadWrite && Allowed(s, c, name, ReadProperty) then NeedsReadWrite
    else Denied(c)
  }

  /** A refused write of something readable says what is missing; any other refusal
      says only whether to authenticate. */
  lemma CheckMeaning(s: Server, c: Caller, name: Name, op: Operation)
    ensures var d, read := Judged(s, c, name, op), Judged(s, c, name, ReadProperty);
            var granted := d.allowed && (op == WriteProperty ==> d.permission == ReadWrite);
            && (Check(s, c, name, op) == Granted <==> granted)
            && (Check(s, c, name, op) == NeedsReadWrite <==> !granted && op == WriteProperty && read.allowed)
            && (Check(s, c, name, op) == Unauthenticated <==>
                  !granted && !(op == WriteProperty && read.allowed) && c.bearer == [])
            && (Check(s, c, name, op) == Forbidden <==>
                  !granted && !(op == WriteProperty && read.allowed) && c.bearer != [])
  {
    hide Judged, Allowed;
    AllowedMeaning(s, c, name, op);
    AllowedMeaning(s, c, name, ReadProperty);
  }

  function Target(snapshot: Snapshot, obj: Option<ObjectIdentifier>): ObjectIdentifier {
    if obj.Some? then obj.value else ObjectIdentifier(DEVICE_OBJECT, snapshot.instance)
  }

  /** authorizeVariable: the name the request was judged by (empty when none was
      looked up), and the verdict. */
  function AuthorizeVariable(s: Server, c: Caller, cached: Reply<Snapshot>, obj: Option<ObjectIdentifier>,
                             op: Operation): (Name, Verdict)
  {
    if !s.needsNames then ([], Check(s, c, [], op))
    else if cached.Failed? then
      ([], if c.req.tokenName != [] || c.req.claims.Some? then CannotEnumerate(cached.failure) else Denied(c))
    else
      var id := Target(cached.value, obj);
      if id !in cached.value.byID then ([], Denied(c))
      else
        var name := cached.value.byID[id].name;
        (name, Check(s, c, name, op))
  }

  /** The object is listed, under a non-empty name that the rules allow. */
  predicate AllowedByItsName(s: Server, c: Caller, dv: Snapshot, id: ObjectIdentifier, op: Operation) {
    && id in dv.byID && dv.byID[id] in dv.vars && dv.byID[id].obj == id
    && dv.byID[id].name != [] && Allowed(s, c, dv.byID[id].name, op)
  }

  /** Where names matter, exactly the listed variables that the rules allow under
      their own names are granted; where they don't, the verdict is the one that any
      name would give. */
  lemma GrantedIff(s: Server, c: Caller, cached: Reply<Snapshot>, obj: Option<ObjectIdentifier>, op: Operation,
                   any: Name)
    requires ServerOk(s) && (cached.Got? ==> WellFormed(cached.value))
    ensures var (name, verdict) := AuthorizeVariable(s, c, cached, obj, op);
            if !s.needsNames then verdict == Check(s, c, any, op)
            else if cached.Failed? then
              verdict == (if c.req.tokenName != [] || c.req.claims.Some? then CannotEnumerate(cached.failure)
                          else if c.bearer == [] then Unauthenticated else Forbidden)
            else
              var id := if obj.Some? then obj.value else ObjectIdentifier(8, cached.value.instance);
              && (verdict == Granted <==> AllowedByItsName(s, c, cached.value, id, op))
              && (id in cached.value.byID ==>
                    name == cached.value.byID[id].name && verdict == Check(s, c, cached.value.byID[id].name, op))
              && (id !in cached.value.byID ==> verdict == if c.bearer == [] then Unauthenticated else Forbidden)
  {
    if s.needsNames {
      hide Allowed, UsesCondition;
      if cached.Got? && Target(cached.value, obj) in cached.value.byID {
        assert cached.value.byID[Target(cached.value, obj)] in cached.value.vars;
      }
    } else {
      AllowedIgnoresName(s, c, any, [], op);
      AllowedIgnoresName(s, c, any, [], ReadProperty);
    }
  }

  /** In every reachable cache: a request that is granted while some rule looks at
      names was judged by a non-empty name of a variable of one complete load of
      the device's host. */
  lemma GrantedByAName(start: int, es: seq<Cache.Event>, g: Cache.GetterId,
                       s: Server, c: Caller, obj: Option<ObjectIdentifier>, op: Operation)
    requires ServerOk(s) && s.needsNames
    requires Cache.Run(Cache.Init(start), es).Some?
    requires var t := Cache.Run(Cache.Init(start), es).value;
             g in t.getters && t.getters[g].Returned? && t.getters[g].outcome.Served?
    requires var t := Cache.Run(Cache.Init(start), es).value;
             AuthorizeVariable(s, c, Got(t.getters[g].outcome.stored.snapshot), obj, op).1 == Granted
    ensures var t := Cache.Run(Cache.Init(start), es).value;
            var stored := t.getters[g].outcome.stored;
            var name := AuthorizeVariable(s, c, Got(stored.snapshot), obj, op).0;
            && name != [] && Allowed(s, c, name, op)
            && stored.load < |t.loads| && t.loads[stored.load].host == t.getters[g].host
            && t.loads[stored.load].status == Cache.Succeeded(stored.snapshot)
            && (exists v :: v in stored.snapshot.vars && v.name == name && v.obj == Target(stored.snapshot, obj))
  {
    hide Cache.Run, Allowed, UsesCondition, AuthorizeVariable, WellFormed;
    Cache.ServedIsOneLoad(start, es, g);
    var stored := Cache.Run(Cache.Init(start), es).value.getters[g].outcome.stored;
    GrantedIff(s, c, Got(stored.snapshot), obj, op, []);
  }

  // ----- listing a device's variables

  datatype Summary = Summary(obj: ObjectIdentifier, name: Name, description: Name, units: seq<Value>, access: Access)

  /** The variables the caller may see, each judged by its own name. */
  function Visible(s: Server, c: Caller, vars: seq<Variable>): seq<Summary> {
    if vars == [] then []
    else
      var a := VariableAccess(s, c, vars[0].name);
      (if a.AccessNone? then [] else [Summary(vars[0].obj, vars[0].name, vars[0].description, vars[0].units, a)])
      + Visible(s, c, vars[1..])
  }

  /** One variable's share of the list: its own fields, with its own access. */
  lemma VisibleOne(s: Server, c: Caller, v: Variable)
    ensures var read, write := Judged(s, c, v.name, ReadProperty), Judged(s, c, v.name, WriteProperty);
            var a := if write.allowed && write.permission == ReadWrite then AccessReadWrite else AccessReadOnly;
            Visible(s, c, [v]) == if read.allowed then [Summary(v.obj, v.name, v.description, v.units, a)] else []
  {
    AccessMeaning(s, c, v.name);
    hide VariableAccess, Judged;
    assert Visible(s, c, [v][1..]) == [];
  }

  /** The list is put together from its variables' shares, in their order. */
  lemma {:induction false} VisibleConcat(s: Server, c: Caller, a: seq<Variable>, b: seq<Variable>)
    ensures Visible(s, c, a + b) == Visible(s, c, a) + Visible(s, c, b)
    decreases |a|
  {
    hide VariableAccess;
    if a == [] {
      assert a + b == b;
    } else {
      assert (a + b)[1..] == a[1..] + b;
      VisibleConcat(s, c, a[1..], b);
    }
  }

  lemma NextVisible(s: Server, c: Caller, out: seq<Summary>, vars: seq<Variable>)
    requires vars != []
    ensures var v, a := vars[0], VariableAccess(s, c, vars[0].name);
            var seen := if a.AccessNone? then out else out + [Summary(v.obj, v.name, v.description, v.units, a)];
            out + Visible(s, c, vars) == seen + Visible(s, c, vars[1..])
  {
    hide VariableAccess;
    var v, a := vars[0], VariableAccess(s, c, vars[0].name);
    var first := if a.AccessNone? then [] else [Summary(v.obj, v.name, v.description, v.units, a)];
    assert Visible(s, c, vars) == first + Visible(s, c, vars[1..]);
    hide Visible;
    Reassociated(out, first, Visible(s, c, vars[1..]));
  }

  lemma Reassociated<T>(a: seq<T>, b: seq<T>, c: seq<T>)
    ensures a + (b + c) == (a + b) + c && a + [] == a
  {
  }

  /** visibleVariables, with its fast path: one verdict for all variables when no
      rule looks at names. */
  method VisibleVariables(s: Server, c: Caller, dv: Snapshot) returns (out: seq<Summary>)
    requires ServerOk(s)
    ensures out == Visible(s, c, dv.vars)
  {
    hide ServerOk, VariableAccess, Visible;
    var uniform := AccessNone;
    if !s.needsNames {
      uniform := VariableAccess(s, c, []);
    }
    out := [];
    var i := 0;
    ghost var whole := Visible(s, c, dv.vars);
    assert dv.vars[i..] == dv.vars && out + whole == whole;
    while i < |dv.vars|
      invariant 0 <= i <= |dv.vars|
      invariant whole == out + Visible(s, c, dv.vars[i..])
    {
      NextVisible(s, c, out, dv.vars[i..]);
      var v := dv.vars[i];
      assert dv.vars[i..][1..] == dv.vars[i + 1..];
      var a := uniform;
      if s.needsNames {
        a := VariableAccess(s, c, v.name);
      } else {
        UniformAccess(s, c, v.name);
      }
      if a != AccessNone {
        out := out + [Summary(v.obj, v.name, v.description, v.units, a)];
      }
      i := i + 1;
    }
    assert dv.vars[i..] == [];
    assert Visible(s, c, []) == [] by { NothingVisible(s, c); }
  }

  lemma NothingVisible(s: Server, c: Caller)
    ensures Visible(s, c, []) == []
  {
  }

  // ----- the filtered object-list

  predicate Sees(s: Server, c: Caller, byID: map<ObjectIdentifier, Variable>, obj: ObjectIdentifier) {
    obj in byID && VariableAccess(s, c, byID[obj].name) != AccessNone
  }

  function Filtered(s: Server, c: Caller, byID: map<ObjectIdentifier, Variable>, list: seq<Value>): (r: seq<Value>)
    ensures |r| <= |list| && forall v :: v in r ==> v.ObjectID?
  {
    if list == [] then []
    else
      (if list[0].ObjectID? && Sees(s, c, byID, list[0].oid) then [list[0]] else [])
      + Filtered(s, c, byID, list[1..])
  }

  /** What is shown of one element: an object that the cache knows and whose name the
      caller may read; nothing else. */
  lemma FilteredOne(s: Server, c: Caller, byID: map<ObjectIdentifier, Variable>, v: Value)
    ensures Filtered(s, c, byID, [v])
         == if v.ObjectID? && v.oid in byID && Judged(s, c, byID[v.oid].name, ReadProperty).allowed then [v] else []
  {
    if v.ObjectID? && v.oid in byID { AccessMeaning(s, c, byID[v.oid].name); }
    hide VariableAccess, Judged;
    assert Filtered(s, c, byID, [v][1..]) == [];
  }

  /** The list is filtered element by element, in order. */
  lemma {:induction false} FilteredConcat(s: Server, c: Caller, byID: map<ObjectIdentifier, Variable>,
                                          a: seq<Value>, b: seq<Value>)
    ensures Filtered(s, c, byID, a + b) == Filtered(s, c, byID, a) + Filtered(s, c, byID, b)
    decreases |a|
  {
    hide Sees;
    if a == [] {
      assert a + b == b;
    } else {
      assert (a + b)[1..] == a[1..] + b;
      FilteredConcat(s, c, byID, a[1..], b);
    }
  }

  lemma NextFiltered(s: Server, c: Caller, byID: map<ObjectIdentifier, Variable>, seen: seq<Value>, list: seq<Value>)
    requires list != []
    ensures seen + Filtered(s, c, byID, list)
      == (if list[0].ObjectID? && Sees(s, c, byID, list[0].oid) then seen + [list[0]] else seen)
         + Filtered(s, c, byID, list[1..])
  {
    hide Sees;
    var first := if list[0].ObjectID? && Sees(s, c, byID, list[0].oid) then [list[0]] else [];
    assert Filtered(s, c, byID, list) == first + Filtered(s, c, byID, list[1..]);
    hide Filtered;
    Reassociated(seen, first, Filtered(s, c, byID, list[1..]));
  }

  datatype Answer = Answer(values: seq<Value>) | IndexOutOfRange

  function Indexed(visible: seq<Value>, index: Option<uint32>): Answer
    requires |visible| < 0x1_0000_0000_0000_0000
  {
    match index
    case None => Answer(visible)
    case Some(i) =>
      if i == 0 then Answer([UnsignedInt(|visible|)])
      else if i <= |visible| then Answer([visible[i - 1]])
      else IndexOutOfRange
  }

  /** serveFilteredObjectList, given the cached snapshot and the live list. */
  method ServeFilteredObjectList(s: Server, c: Caller, dv: Snapshot, list: seq<Value>, index: Option<uint32>)
    returns (answer: Answer)
    requires |list| < 0x1_0000_0000_0000_0000
    ensures answer == Indexed(Filtered(s, c, dv.byID, list), index)
    ensures index == None ==> answer == Answer(Filtered(s, c, dv.byID, list))
    ensures index == Some(0) ==> answer == Answer([UnsignedInt(|Filtered(s, c, dv.byID, list)|)])
    ensures index.Some? && 0 < index.value <= |Filtered(s, c, dv.byID, list)| ==>
      answer == Answer([Filtered(s, c, dv.byID, list)[index.value - 1]])
    ensures index.Some? && index.value > |Filtered(s, c, dv.byID, list)| ==> answer == IndexOutOfRange
  {
    hide VariableAccess, Filtered;
    var visible: seq<Value> := [];
    var k := 0;
    ghost var whole := Filtered(s, c, dv.byID, list);
    assert list[k..] == list && visible + whole == whole;
    while k < |list|
      invariant 0 <= k <= |list|
      invariant whole == visible + Filtered(s, c, dv.byID, list[k..])
    {
      NextFiltered(s, c, dv.byID, visible, list[k..]);
      assert list[k..][1..] == list[k + 1..];
      var v := list[k];
      k := k + 1;
      if !v.ObjectID? {
        continue;
      }
      if v.oid in dv.byID && VariableAccess(s, c, dv.byID[v.oid].name) != AccessNone {
        visible := visible + [v];
      }
    }
    assert list[k..] == [] && |Filtered(s, c, dv.byID, [])| == 0;
    match index {
      case None =>
      case Some(i) =>
        if i == 0 {
          visible := [UnsignedInt(|visible|)];
        } else if i <= |visible| {
          visible := visible[i - 1..i];
        } else {
          return IndexOutOfRange;
        }
    }
    answer := Answer(visible);
  }

  ghost predicate SameByIndex(a: seq<Value>, b: seq<Value>)
    requires |a| < 0x1_0000_0000 && |b| < 0x1_0000_0000
  {
    forall i: uint32 :: Indexed(a, Some(i)) == Indexed(b, Some(i))
  }

  /** Asking index by index tells exactly the visible sequence, and nothing else. */
  lemma IndexesTellTheVisible(a: seq<Value>, b: seq<Value>)
    requires |a| < 0x1_0000_0000 && |b| < 0x1_0000_0000
    ensures SameByIndex(a, b) <==> a == b
  {
    if SameByIndex(a, b) {
      assert Indexed(a, Some(0)) == Indexed(b, Some(0));
      forall k | 0 <= k < |a| ensures a[k] == b[k] {
        assert Indexed(a, Some((k + 1) as uint32)) == Indexed(b, Some((k + 1) as uint32));
      }
    }
  }

  /** Hidden objects leave no trace, wherever they are in the device's list. */
  lemma {:induction false} HiddenLeavesNoTrace(s: Server, c: Caller, byID: map<ObjectIdentifier, Variable>,
                                               a: seq<Value>, hidden: Value, b: seq<Value>)
    requires hidden.ObjectID? ==> !Sees(s, c, byID, hidden.oid)
    ensures Filtered(s, c, byID, a + [hidden] + b) == Filtered(s, c, byID, a + b)
    decreases |a|
  {
    hide Sees;
    if a == [] {
      assert (a + [hidden] + b)[1..] == b && a + b == b;
    } else {
      assert (a + [hidden] + b)[1..] == a[1..] + [hidden] + b && (a + b)[1..] == a[1..] + b;
      HiddenLeavesNoTrace(s, c, byID, a[1..], hidden, b);
    }
  }

  /** Caches that agree on what the caller sees give the same list, however they
      differ on hidden variables. */
  lemma {:induction false} OnlyTheVisibleMatters(s: Server, c: Caller, byID: map<ObjectIdentifier, Variable>,
                                                 other: map<ObjectIdentifier, Variable>, list: seq<Value>)
    requires forall v :: v in list && v.ObjectID? ==> (Sees(s, c, byID, v.oid) <==> Sees(s, c, other, v.oid))
    ensures Filtered(s, c, byID, list) == Filtered(s, c, other, list)
  {
    hide Sees;
    if list != [] { OnlyTheVisibleMatters(s, c, byID, other, list[1..]); }
  }

  // ----- the two listings agree

  function FilterIds(s: Server, c: Caller, byID: map<ObjectIdentifier, Variable>, ids: seq<ObjectIdentifier>)
    : seq<ObjectIdentifier>
  {
    if ids == [] then [] else (if Sees(s, c, byID, ids[0]) then [ids[0]] else []) + FilterIds(s, c, byID, ids[1..])
  }

  function SummaryIds(out: seq<Summary>): seq<ObjectIdentifier> {
    if out == [] then [] else [out[0].obj] + SummaryIds(out[1..])
  }

  predicate NoRepeats(ids: seq<ObjectIdentifier>) { forall i, j :: 0 <= i < j < |ids| ==> ids[i] != ids[j] }

  lemma FirstObject(o: ObjectIdentifier, list: seq<Value>)
    ensures Ids(ObjectsOf([ObjectID(o)] + list)) == [o] + Ids(ObjectsOf(list))
  {
    var first := [Variable(o, [], [], [])];
    assert ([ObjectID(o)] + list)[1..] == list;
    assert (first + ObjectsOf(list))[1..] == ObjectsOf(list);
  }

  lemma FilterFirst(s: Server, c: Caller, byID: map<ObjectIdentifier, Variable>, o: ObjectIdentifier,
                    ids: seq<ObjectIdentifier>)
    ensures FilterIds(s, c, byID, [o] + ids)
      == (if Sees(s, c, byID, o) then [o] + FilterIds(s, c, byID, ids) else FilterIds(s, c, byID, ids))
  {
    hide Sees;
    assert ([o] + ids)[1..] == ids;
  }

  lemma FilteredFirst(s: Server, c: Caller, byID: map<ObjectIdentifier, Variable>, v: Value, list: seq<Value>)
    ensures Filtered(s, c, byID, [v] + list)
      == (if v.ObjectID? && Sees(s, c, byID, v.oid) then [v] + Filtered(s, c, byID, list)
          else Filtered(s, c, byID, list))
  {
    hide Sees;
    assert ([v] + list)[1..] == list;
  }

  lemma NoObject(v: Value, list: seq<Value>)
    requires !v.ObjectID?
    ensures ObjectsOf([v] + list) == ObjectsOf(list)
  {
    assert ([v] + list)[1..] == list;
  }

  lemma {:induction false} FilteredIds(s: Server, c: Caller, byID: map<ObjectIdentifier, Variable>, list: seq<Value>)
    ensures Ids(ObjectsOf(Filtered(s, c, byID, list))) == FilterIds(s, c, byID, Ids(ObjectsOf(list)))
  {
    if list != [] {
      hide Sees, Ids, ObjectsOf, Filtered, FilterIds;
      var v, tail := list[0], list[1..];
      var rest, ids := Filtered(s, c, byID, tail), Ids(ObjectsOf(tail));
      assert list == [v] + tail;
      FilteredIds(s, c, byID, tail);
      FilteredFirst(s, c, byID, v, tail);
      if v.ObjectID? {
        FirstObject(v.oid, tail);
        FirstObject(v.oid, rest);
        FilterFirst(s, c, byID, v.oid, ids);
      } else {
        NoObject(v, tail);
      }
    }
  }

  lemma {:induction false} IdsMembers(vars: seq<Variable>)
    ensures |Ids(vars)| == |vars| && forall i :: 0 <= i < |vars| ==> Ids(vars)[i] == vars[i].obj
  {
    if vars != [] { IdsMembers(vars[1..]); }
  }

  lemma {:induction false} SubsequenceMembers<T>(a: seq<T>, b: seq<T>, x: T)
    requires Subsequence(a, b) && x in a
    ensures x in b
  {
    if a[0] == b[0] {
      if x != a[0] { SubsequenceMembers(a[1..], b[1..], x); }
    } else {
      SubsequenceMembers(a, b[1..], x);
    }
  }

  /** Objects that are not listed are not seen. */
  lemma {:induction false} FilterSkipsUnlisted(s: Server, c: Caller, byID: map<ObjectIdentifier, Variable>,
                                               listed: seq<ObjectIdentifier>, ids: seq<ObjectIdentifier>)
    requires Subsequence(listed, ids) && NoRepeats(ids) && forall o :: o in ids && o in byID ==> o in listed
    ensures FilterIds(s, c, byID, ids) == FilterIds(s, c, byID, listed)
    decreases |ids|
  {
    if ids != [] {
      if listed != [] && listed[0] == ids[0] {
        forall o | o in ids[1..] && o in byID ensures o in listed[1..] {
          assert o in ids && o != ids[0];
        }
        hide Sees;
        FilterSkipsUnlisted(s, c, byID, listed[1..], ids[1..]);
      } else {
        if ids[0] in byID {
          SubsequenceMembers(listed, ids[1..], ids[0]);
          assert false;
        }
        FilterSkipsUnlisted(s, c, byID, listed, ids[1..]);
      }
    }
  }

  lemma {:induction false} VisibleIds(s: Server, c: Caller, byID: map<ObjectIdentifier, Variable>, vars: seq<Variable>)
    requires forall v :: v in vars ==> v.obj in byID && byID[v.obj] == v
    ensures SummaryIds(Visible(s, c, vars)) == FilterIds(s, c, byID, Ids(vars))
  {
    hide VariableAccess;
    if vars != [] {
      assert vars[0] in vars;
      VisibleIds(s, c, byID, vars[1..]);
      var rest := Visible(s, c, vars[1..]);
      assert [] + rest == rest && Ids(vars)[1..] == Ids(vars[1..]);
      var a := VariableAccess(s, c, vars[0].name);
      if !a.AccessNone? {
        assert Visible(s, c, vars)[1..] == rest;
      }
    }
  }

  /** When the live object-list is the one the snapshot was loaded from, and its
      objects are distinct, the filtered object-list shows the same objects as the
      variable listing, in the same order. */
  lemma ListingsAgree(s: Server, c: Caller, env: Env, dev: Device, who: Reply<uint32>)
    requires |dev.objectList| < FIRST_WRAPPING_LENGTH && Load(env, dev, who).Published?
    requires Distinct(ObjectsOf(dev.objectList))
    ensures var dv := Load(env, dev, who).snapshot;
            Ids(ObjectsOf(Filtered(s, c, dv.byID, dev.objectList))) == SummaryIds(Visible(s, c, dv.vars))
  {
    PublishedIsGenuine(env, dev, who);
    hide Load, Filtered, Visible, SummaryIds, FilterIds, TrulyNamed, Subsequence, ObjectsOf;
    var dv := Load(env, dev, who).snapshot;
    var all := ObjectsOf(dev.objectList);
    IdsMembers(all);
    IdsMembers(dv.vars);
    FilteredIds(s, c, dv.byID, dev.objectList);
    SubsequenceNoRepeats(Ids(dv.vars), Ids(all));
    forall v | v in dv.vars ensures v.obj in dv.byID && dv.byID[v.obj] == v {
      var w := dv.byID[v.obj];
      var i :| 0 <= i < |dv.vars| && dv.vars[i] == v;
      var j :| 0 <= j < |dv.vars| && dv.vars[j] == w;
      assert Ids(dv.vars)[i] == Ids(dv.vars)[j];
    }
    forall o | o in Ids(all) && o in dv.byID ensures o in Ids(dv.vars) {
      var j :| 0 <= j < |dv.vars| && dv.vars[j] == dv.byID[o];
      assert Ids(dv.vars)[j] == o;
    }
    FilterSkipsUnlisted(s, c, dv.byID, Ids(dv.vars), Ids(all));
    VisibleIds(s, c, dv.byID, dv.vars);
  }

  lemma {:induction false} SubsequenceNoRepeats(a: seq<ObjectIdentifier>, b: seq<ObjectIdentifier>)
    requires Subsequence(a, b) && NoRepeats(b)
    ensures NoRepeats(a)
    decreases |b|
  {
    if a != [] {
      if a[0] == b[0] {
        SubsequenceNoRepeats(a[1..], b[1..]);
        forall j | 0 < j < |a| ensures a[j] != a[0] {
          assert a[1..][j - 1] == a[j];
          SubsequenceMembers(a[1..], b[1..], a[j]);
        }
      } else {
        SubsequenceNoRepeats(a, b[1..]);
      }
    }
  }
}
