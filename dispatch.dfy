/**
 * The step every chained callback of `JSClassDefinition` takes at one class
 * of the parent chain, as pure functions of that class's callback fields:
 * which callback a request reaches, whether the callback accepts, and what
 * the whole chain answers when the engine asks it once per class that has
 * the callback.
 */
module Dispatch {
  import opened Base
  import opened Callbacks
  import opened JSTypes

  /** The eleven callback fields of a class definition; `None` is a `null` field. */
  datatype Hooks = Hooks(
    initialize: Option<LifecycleHook>,
    finalize: Option<LifecycleHook>,
    hasProperty: Option<HasPropertyHook>,
    getProperty: Option<GetPropertyHook>,
    setProperty: Option<SetPropertyHook>,
    deleteProperty: Option<DeletePropertyHook>,
    getPropertyNames: Option<GetPropertyNamesHook>,
    callAsFunction: Option<CallAsFunctionHook>,
    callAsConstructor: Option<CallAsConstructorHook>,
    hasInstance: Option<HasInstanceHook>,
    convertToType: Option<ConvertToTypeHook>)

  /** Every callback field `null`, as `dispose` leaves them. */
  const NoHooks: Hooks := Hooks(None, None, None, None, None, None, None, None, None, None, None)

  /** The eight process-wide memo maps, one per chained callback. */
  datatype MemoKind =
    | SetPropertyChain | GetPropertyChain | ConvertToTypeChain | DeletePropertyChain
    | GetPropertyNamesChain | HasPropertyChain | HasInstanceChain | CallAsConstructorChain

  /** An entry of the memo maps: which map, and the object (or constructor) handle it is keyed by. */
  datatype MemoKey = MemoKey(kind: MemoKind, handle: Long)

  /** A call of one of the eight chained callbacks, with the arguments that reach the host callback. */
  datatype Request =
    | SetProperty(object: Long, name: string, value: Long)
    | GetProperty(object: Long, name: string)
    | ConvertToType(object: Long, typeCode: Int32)
    | DeleteProperty(object: Long, name: string)
    | GetPropertyNames(object: Long)
    | HasProperty(object: Long, name: string)
    | HasInstance(constructorObject: Long, possibleInstance: Long)
    | CallAsConstructor(constructorObject: Long, arguments: seq<Long>)
  {
    /** The memo entry the callback consults: its own map, at the object (or constructor) handle. */
    function Key(): MemoKey
    {
      match this
      case SetProperty(o, _, _) => MemoKey(SetPropertyChain, o)
      case GetProperty(o, _) => MemoKey(GetPropertyChain, o)
      case ConvertToType(o, _) => MemoKey(ConvertToTypeChain, o)
      case DeleteProperty(o, _) => MemoKey(DeletePropertyChain, o)
      case GetPropertyNames(o) => MemoKey(GetPropertyNamesChain, o)
      case HasProperty(o, _) => MemoKey(HasPropertyChain, o)
      case HasInstance(c, _) => MemoKey(HasInstanceChain, c)
      case CallAsConstructor(c, _) => MemoKey(CallAsConstructorChain, c)
    }
  }

  /**
   * What a chained callback answers: `accepted` for a `true` result or a
   * non-null value, `value` the address of the value (0 for `null` and for
   * the boolean callbacks), `names` the property names added to the
   * accumulator.
   */
  datatype Reply = Reply(accepted: bool, value: Long, names: seq<string>)

  /** The answer of a callback that found nothing: `false`, 0, no names. */
  const Nothing: Reply := Reply(false, 0, [])

  /**
   * The local step at one class: `None` when the class's field for the
   * request is `null`, otherwise what its callback answers. A boolean
   * callback accepts with `true`; `getProperty` and `convertToType` accept
   * with a non-null value, `convertToType` decoding the type code first
   * (an unknown code throws); `getPropertyNames` never accepts;
   * `callAsConstructor` always does, whatever it returns.
   */
  function Local(h: Hooks, req: Request): Option<Result<Reply>>
  {
    match req
    case SetProperty(o, n, v) =>
      if h.setProperty.None? then None else Some(Success(Reply(h.setProperty.value(o, n, v), 0, [])))
    case GetProperty(o, n) =>
      if h.getProperty.None? then None
      else var v := h.getProperty.value(o, n); Some(Success(Reply(v != 0, v, [])))
    case ConvertToType(o, code) =>
      if h.convertToType.None? then None
      else
        var t := JSTypes.Request(code);
        if t.Failure? then Some(Failure(t.error))
        else var v := h.convertToType.value(o, t.value); Some(Success(Reply(v != 0, v, [])))
    case DeleteProperty(o, n) =>
      if h.deleteProperty.None? then None else Some(Success(Reply(h.deleteProperty.value(o, n), 0, [])))
    case GetPropertyNames(o) =>
      if h.getPropertyNames.None? then None else Some(Success(Reply(false, 0, h.getPropertyNames.value(o))))
    case HasProperty(o, n) =>
      if h.hasProperty.None? then None else Some(Success(Reply(h.hasProperty.value(o, n), 0, [])))
    case HasInstance(c, i) =>
      if h.hasInstance.None? then None else Some(Success(Reply(h.hasInstance.value(c, i), 0, [])))
    case CallAsConstructor(c, args) =>
      if h.callAsConstructor.None? then None else Some(Success(Reply(true, h.callAsConstructor.value(c, args), [])))
  }

  /**
   * The forms an answer takes, as the Java signatures allow: only
   * `convertToType` and `callAsConstructor` throw; the boolean callbacks
   * carry no value; `getProperty` and `convertToType` accept exactly with a
   * non-null value; only `getPropertyNames` adds names, and it never
   * accepts; `callAsConstructor` always accepts.
   */
  predicate Shaped(req: Request, r: Result<Reply>)
  {
    && (r.Failure? ==> req.ConvertToType? || req.CallAsConstructor?)
    && (r.Success? ==>
          && (r.value.names != [] ==> req.GetPropertyNames?)
          && (req.GetPropertyNames? ==> !r.value.accepted)
          && (req.CallAsConstructor? ==> r.value.accepted)
          && (req.GetProperty? || req.ConvertToType? ==> (r.value.accepted <==> r.value.value != 0))
          && (!(req.GetProperty? || req.ConvertToType? || req.CallAsConstructor?) ==> r.value.value == 0))
  }

  /**
   * A callback answers in the form its signature allows, and throws only
   * for a type code `JSType.request` does not know.
   */
  lemma LocalShape(h: Hooks, req: Request)
    ensures var r := Local(h, req);
      && (r.Some? ==> Shaped(req, r.value))
      && (r.Some? && r.value.Failure? ==> req.ConvertToType? && !(0 <= req.typeCode <= 5))
  {
  }

  /** What one class's callback does with a request: `None` when the class has no callback for it. */
  type Answer = Option<Result<Reply>>

  /** Whether the callback ends the walk: it throws or it accepts. */
  predicate Decides(l: Answer)
  {
    l.Some? && (l.value.Failure? || l.value.value.accepted)
  }

  /** The names a callback adds. */
  function NamesOf(l: Answer): seq<string>
  {
    if l.Some? && l.value.Success? then l.value.value.names else []
  }

  /**
   * The answer at the root when no callback accepted: `false`, 0 or the
   * names the root's own callback added; `callAsConstructor` throws.
   */
  function Declined(req: Request, local: Answer): (r: Result<Reply>)
    ensures req.CallAsConstructor? <==> r.Failure?
    ensures r.Success? ==> !r.value.accepted && r.value.value == 0 && r.value.names == NamesOf(local)
    ensures local.Some? ==> Shaped(req, local.value) ==> Shaped(req, r)
  {
    if req.CallAsConstructor? then
      Failure(JavaScriptException("CallAsConstructor callback is not found for " + Decimal(req.constructorObject)))
    else
      Success(Reply(false, 0, NamesOf(local)))
  }

  /** The answers of the classes of a chain, leaf first, to one request. */
  function Answers(hs: seq<Hooks>, req: Request): (ls: seq<Answer>)
    ensures |ls| == |hs| && forall k :: 0 <= k < |hs| ==> ls[k] == Local(hs[k], req)
  {
    seq(|hs|, k requires 0 <= k < |hs| => Local(hs[k], req))
  }

  /** The first class at or after `i` that has a callback, or `|ls|`. */
  function NextHooked(ls: seq<Answer>, i: nat): (j: nat)
    requires i <= |ls|
    ensures i <= j <= |ls|
    ensures j < |ls| ==> ls[j].Some?
    ensures forall k :: i <= k < j ==> ls[k].None?
    decreases |ls| - i
  {
    if i == |ls| || ls[i].Some? then i else NextHooked(ls, i + 1)
  }

  /** How many classes at or after `i` have a callback. */
  function HookedFrom(ls: seq<Answer>, i: nat): (n: nat)
    requires i <= |ls|
    ensures n <= |ls| - i
    decreases |ls| - i
  {
    if i == |ls| then 0 else (if ls[i].Some? then 1 else 0) + HookedFrom(ls, i + 1)
  }

  /** The names a later answer carries, after those the earlier class added. */
  function Join(first: Reply, rest: Result<Reply>): Result<Reply>
  {
    if rest.Failure? then rest else Success(Reply(rest.value.accepted, rest.value.value, first.names + rest.value.names))
  }

  /** The memo once class `j` declines: its entry names the class after `j`, or is gone when `j` is the root. */
  function PinnedAfter<C>(memo: map<MemoKey, C>, chain: seq<C>, j: nat, key: MemoKey): map<MemoKey, C>
    requires j < |chain|
  {
    if j + 1 < |chain| then memo[key := chain[j + 1]] else memo - {key}
  }

  /**
   * One call, answered by class `j`, the first with a callback from `i` on,
   * the memo having led the call to class `i`. A callback that throws
   * leaves the memo pinned to `j` (as it was, when `j` is `i`); one that
   * accepts removes the entry; one that declines pins it to the class after
   * `j`, or removes it when `j` is the root. No other entry changes.
   */
  function Step<C>(memo: map<MemoKey, C>, chain: seq<C>, ls: seq<Answer>, i: nat, j: nat, key: MemoKey)
    : (r: (Result<Reply>, map<MemoKey, C>))
    requires |chain| == |ls| && i <= j < |ls| && ls[j].Some?
    ensures r.1 - {key} == memo - {key}
    ensures r.0.Success? ==> (r.0.value.accepted <==> key !in r.1 && Decides(ls[j]))
  {
    var local := ls[j].value;
    if local.Failure? then (local, if j == i then memo else memo[key := chain[j]])
    else if local.value.accepted then (local, memo - {key})
    else (Success(Reply(false, 0, local.value.names)), PinnedAfter(memo, chain, j, key))
  }

  /**
   * The answer the engine obtains when it calls the leaf's callback once
   * for each class of the chain from `i` on that has the callback (`ls`
   * holds their answers), as long as no call throws or accepts: that of
   * the first callback that throws or accepts, carrying the names the
   * callbacks before it added.
   */
  function Reached(ls: seq<Answer>, i: nat): Result<Reply>
    requires i <= |ls|
    decreases |ls| - i
  {
    if i == |ls| then Success(Nothing)
    else if ls[i].None? then Reached(ls, i + 1)
    else if Decides(ls[i]) then ls[i].value
    else Join(ls[i].value.value, Reached(ls, i + 1))
  }

  /** What the memo becomes over the same calls: each call is answered by the next class with a callback. */
  function MemoAfter<C>(memo: map<MemoKey, C>, chain: seq<C>, ls: seq<Answer>, i: nat, key: MemoKey): map<MemoKey, C>
    requires |chain| == |ls| && i <= |ls|
    decreases |ls| - i
  {
    var j := NextHooked(ls, i);
    if j == |ls| then memo
    else
      var m := Step(memo, chain, ls, i, j, key).1;
      if Decides(ls[j]) then m else MemoAfter(m, chain, ls, j + 1, key)
  }

  /** The first class at or after `i` whose callback ends the walk, or `|ls|`. */
  function FirstDecisive(ls: seq<Answer>, i: nat): (j: nat)
    requires i <= |ls|
    ensures i <= j <= |ls|
    ensures j < |ls| ==> Decides(ls[j])
    ensures forall k :: i <= k < j ==> !Decides(ls[k])
    decreases |ls| - i
  {
    if i == |ls| || Decides(ls[i]) then i else FirstDecisive(ls, i + 1)
  }

  /** The names the callbacks of the classes at or after `i` add, in chain order. */
  function NamesFrom(ls: seq<Answer>, i: nat): seq<string>
    requires i <= |ls|
    decreases |ls| - i
  {
    if i == |ls| then [] else NamesOf(ls[i]) + NamesFrom(ls, i + 1)
  }

  /** The last class at or after `i` that has a callback, if any. */
  function LastHooked(ls: seq<Answer>, i: nat): (j: Option<nat>)
    requires i <= |ls|
    ensures j.Some? ==> i <= j.value < |ls| && ls[j.value].Some?
    ensures j.Some? ==> forall k :: j.value < k < |ls| ==> ls[k].None?
    ensures j.None? ==> forall k :: i <= k < |ls| ==> ls[k].None?
    decreases |ls| - i
  {
    if i == |ls| then None
    else
      var later := LastHooked(ls, i + 1);
      if later.Some? then later else if ls[i].Some? then Some(i) else None
  }

  /**
   * The answer seen call by call: the first call's answer when it throws or
   * accepts, otherwise its names followed by the answer of the calls after
   * it.
   */
  lemma {:induction false} ReachedStep<C>(memo: map<MemoKey, C>, chain: seq<C>, ls: seq<Answer>, i: nat, key: MemoKey)
    requires |chain| == |ls| && i <= |ls|
    requires NextHooked(ls, i) < |ls|
    ensures var j := NextHooked(ls, i);
      var s := Step(memo, chain, ls, i, j, key).0;
      Reached(ls, i) == if Decides(ls[j]) then s else Join(s.value, Reached(ls, j + 1))
    decreases |ls| - i
  {
    if ls[i].None? {
      ReachedStep(memo, chain, ls, i + 1, key);
    }
  }

  /**
   * The chain's answer is that of the first class whose callback throws or
   * accepts, when the callbacks before it add no names.
   */
  lemma {:induction false} ReachedDecisive(ls: seq<Answer>, i: nat)
    requires i <= |ls|
    requires FirstDecisive(ls, i) < |ls|
    requires forall k :: i <= k < |ls| ==> NamesOf(ls[k]) == []
    ensures Reached(ls, i) == ls[FirstDecisive(ls, i)].value
    decreases |ls| - i
  {
    if ls[i].None? {
      ReachedDecisive(ls, i + 1);
    } else if !Decides(ls[i]) {
      ReachedDecisive(ls, i + 1);
      var rest := Reached(ls, i + 1);
      assert NamesOf(ls[i]) == [];
      if rest.Success? {
        assert ls[i].value.value.names + rest.value.names == rest.value.names;
      }
    }
  }

  /**
   * When no callback throws or accepts, nothing is accepted and the answer
   * carries the names every callback on the way added, in chain order.
   */
  lemma {:induction false} ReachedNames(ls: seq<Answer>, i: nat)
    requires i <= |ls|
    requires FirstDecisive(ls, i) == |ls|
    ensures Reached(ls, i) == Success(Reply(false, 0, NamesFrom(ls, i)))
    decreases |ls| - i
  {
    if i < |ls| {
      assert !Decides(ls[i]);
      ReachedNames(ls, i + 1);
      if ls[i].None? {
        assert NamesFrom(ls, i) == [] + NamesFrom(ls, i + 1) == NamesFrom(ls, i + 1);
      }
    }
  }

  /** The walk touches only the memo entry it is keyed by. */
  lemma {:induction false} MemoKeepsOthers<C>(memo: map<MemoKey, C>, chain: seq<C>, ls: seq<Answer>, i: nat, key: MemoKey)
    requires |chain| == |ls| && i <= |ls|
    ensures MemoAfter(memo, chain, ls, i, key) - {key} == memo - {key}
    decreases |ls| - i
  {
    var j := NextHooked(ls, i);
    if j < |ls| && !Decides(ls[j]) {
      var m := Step(memo, chain, ls, i, j, key).1;
      MemoKeepsOthers(m, chain, ls, j + 1, key);
    }
  }

  /**
   * After a callback accepts, the entry is gone; after one throws, the
   * entry names the class that threw (or is as it was, when that class
   * was the first asked).
   */
  lemma {:induction false} MemoDecided<C>(memo: map<MemoKey, C>, chain: seq<C>, ls: seq<Answer>, i: nat, key: MemoKey)
    requires |chain| == |ls| && i <= |ls|
    requires FirstDecisive(ls, i) < |ls|
    ensures var j := FirstDecisive(ls, i);
      var m := MemoAfter(memo, chain, ls, i, key);
      && (ls[j].value.Success? ==> key !in m)
      && (ls[j].value.Failure? ==> if j == i then m == memo else key in m && m[key] == chain[j])
    decreases |ls| - i
  {
    var j := NextHooked(ls, i);
    DecisiveSkip(ls, i, j);
    if !Decides(ls[j]) {
      var pinned := Step(memo, chain, ls, i, j, key).1;
      assert pinned == PinnedAfter(memo, chain, j, key);
      MemoDecided(pinned, chain, ls, j + 1, key);
    }
  }

  /**
   * When every callback declines, the memo is left as the last class with a
   * callback set it (naming the class after it, or without the entry when
   * that class is the root), and untouched when no class has the callback.
   */
  lemma {:induction false} MemoDeclined<C>(memo: map<MemoKey, C>, chain: seq<C>, ls: seq<Answer>, i: nat, key: MemoKey)
    requires |chain| == |ls| && i <= |ls|
    requires FirstDecisive(ls, i) == |ls|
    ensures var last := LastHooked(ls, i);
      MemoAfter(memo, chain, ls, i, key) == if last.None? then memo else PinnedAfter(memo, chain, last.value, key)
    decreases |ls| - i
  {
    var j := NextHooked(ls, i);
    DecisiveSkip(ls, i, j);
    LastSkip(ls, i, j);
    if j < |ls| {
      var pinned := Step(memo, chain, ls, i, j, key).1;
      assert pinned == PinnedAfter(memo, chain, j, key);
      MemoDeclined(pinned, chain, ls, j + 1, key);
      var later := LastHooked(ls, j + 1);
      if later.Some? {
        PinAgain(memo, chain, j, later.value, key);
      }
    }
  }

  /** Pinning twice is pinning once, to the later class. */
  lemma PinAgain<C>(memo: map<MemoKey, C>, chain: seq<C>, j: nat, l: nat, key: MemoKey)
    requires j < |chain| && l < |chain|
    ensures PinnedAfter(PinnedAfter(memo, chain, j, key), chain, l, key) == PinnedAfter(memo, chain, l, key)
  {
    var once := PinnedAfter(memo, chain, l, key);
    var twice := PinnedAfter(PinnedAfter(memo, chain, j, key), chain, l, key);
    assert forall k :: k in twice <==> k in once;
  }

  /** Classes without a callback are never the last with one. */
  lemma {:induction false} LastSkip(ls: seq<Answer>, i: nat, j: nat)
    requires i <= j <= |ls|
    requires forall k :: i <= k < j ==> ls[k].None?
    ensures LastHooked(ls, i) == LastHooked(ls, j)
    ensures j < |ls| && ls[j].Some? ==>
      LastHooked(ls, j) == if LastHooked(ls, j + 1).Some? then LastHooked(ls, j + 1) else Some(j)
    decreases j - i
  {
    if i < j {
      LastSkip(ls, i + 1, j);
    }
  }

  /** Classes without a callback are not called. */
  lemma {:induction false} HookedSkip(ls: seq<Answer>, i: nat, j: nat)
    requires i <= j <= |ls|
    requires forall k :: i <= k < j ==> ls[k].None?
    ensures HookedFrom(ls, i) == HookedFrom(ls, j)
    ensures j < |ls| && ls[j].Some? ==> HookedFrom(ls, j) == 1 + HookedFrom(ls, j + 1)
    decreases j - i
  {
    if i < j {
      HookedSkip(ls, i + 1, j);
    }
  }

  /** Classes without a callback do not change the answer. */
  lemma {:induction false} ReachedSkip(ls: seq<Answer>, i: nat, j: nat)
    requires i <= j <= |ls|
    requires forall k :: i <= k < j ==> ls[k].None?
    ensures Reached(ls, i) == Reached(ls, j)
    decreases j - i
  {
    if i < j {
      ReachedSkip(ls, i + 1, j);
    }
  }

  /** Classes without a callback do not end the walk. */
  lemma {:induction false} DecisiveSkip(ls: seq<Answer>, i: nat, j: nat)
    requires i <= j <= |ls|
    requires forall k :: i <= k < j ==> ls[k].None?
    ensures FirstDecisive(ls, i) == FirstDecisive(ls, j)
    decreases j - i
  {
    if i < j {
      DecisiveSkip(ls, i + 1, j);
    }
  }
}
