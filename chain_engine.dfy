/**
 * How the memo-led callbacks of `JSClassDefinition` behave over a whole
 * property lookup. The native engine walks an object's class chain, leaf
 * first, and at every class whose slot holds the trampoline it calls that
 * trampoline, which always reaches the Java definition of the object's
 * leaf class (through the object's private data); the engine stops at the
 * first call that throws or accepts. The memo maps are what lets the leaf
 * definition answer the k-th call on behalf of the k-th class with a
 * callback.
 */
module ChainEngine {
  import opened Base
  import opened Dispatch
  import opened ClassDefinitions

  /**
   * The Java-defined part of a class chain, leaf first: a class is
   * followed by its parent as long as it forwards to it.
   */
  ghost function ChainFrom(v: View, d: ClassDefinition): (c: seq<ClassDefinition>)
    requires Sound(v) && d in v
    ensures |c| >= 1 && c[0] == d
    ensures forall k :: 0 <= k < |c| ==> c[k] in v
    ensures !v[c[|c| - 1]].hasParent
    ensures forall k :: 0 < k < |c| ==> v[c[k]].rank < v[c[0]].rank
    ensures forall k :: 0 <= k < |c| - 1 ==> v[c[k]].hasParent && c[k + 1] == v[c[k]].parent
    decreases v[d].rank
  {
    if v[d].hasParent then [d] + ChainFrom(v, v[d].parent) else [d]
  }

  /** The answers of the classes of a chain, in chain order. */
  ghost function AnswersOf(v: View, c: seq<ClassDefinition>): (ls: seq<Answer>)
    requires forall k :: 0 <= k < |c| ==> c[k] in v
    ensures |ls| == |c| && forall k :: 0 <= k < |c| ==> ls[k] == v[c[k]].answer
  {
    seq(|c|, k requires 0 <= k < |c| => v[c[k]].answer)
  }

  /**
   * `c` is a class chain of the view, leaf first, with `ls` the answers
   * of its classes: each class but the last forwards to the next, the last
   * to none.
   */
  ghost predicate IsChain(v: View, c: seq<ClassDefinition>, ls: seq<Answer>)
  {
    && |c| >= 1 && |ls| == |c|
    && (forall k :: 0 <= k < |c| ==> c[k] in v && ls[k] == v[c[k]].answer)
    && (forall k :: 0 <= k < |c| - 1 ==> v[c[k]].hasParent && c[k + 1] == v[c[k]].parent)
    && !v[c[|c| - 1]].hasParent
  }

  /** The chain from a class is a class chain. */
  lemma ChainIsChain(v: View, d: ClassDefinition)
    requires Sound(v) && d in v
    ensures IsChain(v, ChainFrom(v, d), AnswersOf(v, ChainFrom(v, d)))
  {
  }

  /** A class chain never comes back to its leaf. */
  lemma {:induction false} ChainAcyclic(v: View, c: seq<ClassDefinition>, ls: seq<Answer>, k: nat)
    requires Sound(v) && IsChain(v, c, ls) && 0 < k < |c|
    ensures v[c[k]].rank < v[c[0]].rank
  {
    if k > 1 {
      ChainAcyclic(v, c, ls, k - 1);
    }
  }

  /**
   * The memo leads a call made on the leaf to class `k` of the chain: an
   * entry naming it, or, for the leaf itself, no entry at all.
   */
  ghost predicate Level(memo: Memo, c: seq<ClassDefinition>, key: MemoKey, k: nat)
    requires k < |c|
  {
    if k == 0 then key !in memo || memo[key] == c[0] else key in memo && memo[key] == c[k]
  }

  /**
   * The native engine's part of one lookup: up to `n` calls to the
   * trampoline, each reaching the leaf's definition, stopping at the first
   * that throws or accepts; the names added along the way accumulate.
   */
  ghost function Engine(v: View, memo: Memo, leaf: ClassDefinition, req: Request, n: nat): (Result<Reply>, Memo)
    requires Sound(v) && leaf in v && Known(v, memo)
    decreases n
  {
    if n == 0 then (Success(Nothing), memo)
    else
      var (x, m) := Outcome(v, memo, leaf, req);
      if x.Failure? || x.value.accepted then (x, m)
      else
        var rest := Engine(v, m, leaf, req, n - 1);
        (Join(x.value, rest.0), rest.1)
  }

  /** A call that reaches class `j` through the class before it, or through an entry naming class `k + 1`, is answered alike. */
  lemma StepRepin(memo: Memo, c: seq<ClassDefinition>, ls: seq<Answer>, k: nat, j: nat, key: MemoKey)
    requires |c| == |ls| && k < j < |ls| && ls[j].Some?
    ensures Step(memo[key := c[k + 1]], c, ls, k + 1, j, key) == Step(memo, c, ls, k, j, key)
  {
    var pinned := memo[key := c[k + 1]];
    if ls[j].value.Failure? {
      assert pinned[key := c[j]] == memo[key := c[j]];
    } else if ls[j].value.value.accepted {
      assert pinned - {key} == memo - {key};
    } else {
      assert PinnedAfter(pinned, c, j, key) == PinnedAfter(memo, c, j, key);
    }
  }

  /** A class with the callback answers a call that reaches it at once. */
  lemma AnswerHere(v: View, memo: Memo, c: seq<ClassDefinition>, ls: seq<Answer>, k: nat, req: Request)
    requires Sound(v) && ShapedView(v, req) && Known(v, memo) && IsChain(v, c, ls)
    requires k < |c| && (req.Key() !in memo || memo[req.Key()] == c[k]) && ls[k].Some?
    ensures Outcome(v, memo, c[k], req) == Step(memo, c, ls, k, k, req.Key())
  {
    assert ls[k] == v[c[k]].answer;
    assert Shaped(req, ls[k].value);
    if k + 1 < |c| {
      assert v[c[k]].hasParent && v[c[k]].parent == c[k + 1];
    }
  }

  /**
   * A call that reaches class `k` with the memo leading nowhere else: the
   * classes without the callback pass it on at once, and the first with
   * the callback answers it as `Step` says; past the root it declines.
   */
  lemma {:induction false} CallAt(v: View, memo: Memo, c: seq<ClassDefinition>, ls: seq<Answer>, k: nat, req: Request)
    requires Sound(v) && ShapedView(v, req) && Known(v, memo) && IsChain(v, c, ls)
    requires k < |c| && (req.Key() !in memo || memo[req.Key()] == c[k])
    ensures var j := NextHooked(ls, k);
      Outcome(v, memo, c[k], req)
        == if j < |c| then Step(memo, c, ls, k, j, req.Key()) else (Declined(req, None), memo - {req.Key()})
    decreases |c| - k
  {
    var key := req.Key();
    assert ls[k] == v[c[k]].answer;
    if ls[k].Some? {
      AnswerHere(v, memo, c, ls, k, req);
    } else if k + 1 == |c| {
      assert NextHooked(ls, k) == |c|;
    } else {
      var pinned := memo[key := c[k + 1]];
      assert Outcome(v, memo, c[k], req) == Outcome(v, pinned, c[k + 1], req);
      CallAt(v, pinned, c, ls, k + 1, req);
      var j := NextHooked(ls, k + 1);
      if j < |c| {
        StepRepin(memo, c, ls, k, j, key);
      } else {
        assert pinned - {key} == memo - {key};
      }
    }
  }

  /** The engine's first call, and the calls it goes on to make when that call declines. */
  lemma EngineStep(v: View, memo: Memo, leaf: ClassDefinition, req: Request, n: nat, x: Result<Reply>, m: Memo)
    requires Sound(v) && leaf in v && Known(v, memo) && n > 0
    requires Outcome(v, memo, leaf, req) == (x, m)
    ensures Known(v, m)
    ensures Engine(v, memo, leaf, req, n)
      == if x.Failure? || x.value.accepted then (x, m)
         else (Join(x.value, Engine(v, m, leaf, req, n - 1).0), Engine(v, m, leaf, req, n - 1).1)
  {
  }

  /**
   * The engine's first call from class `i` on is answered by the next
   * class with the callback; when that class declines, the calls left are
   * those for the classes after it, the memo leading to the class after it.
   */
  lemma EngineCall(v: View, memo: Memo, c: seq<ClassDefinition>, ls: seq<Answer>, i: nat, req: Request)
    requires Sound(v) && ShapedView(v, req) && Known(v, memo) && IsChain(v, c, ls)
    requires i < |c| && Level(memo, c, req.Key(), i) && NextHooked(ls, i) < |c|
    ensures var j := NextHooked(ls, i);
      var s := Step(memo, c, ls, i, j, req.Key());
      var n := HookedFrom(ls, i);
      && Known(v, s.1) && n == 1 + HookedFrom(ls, j + 1)
      && (Decides(ls[j]) ==> Engine(v, memo, c[0], req, n) == s)
      && (!Decides(ls[j]) ==>
            && (j + 1 < |c| ==> Level(s.1, c, req.Key(), j + 1))
            && s.0.Success?
            && Engine(v, memo, c[0], req, n)
               == (Join(s.0.value, Engine(v, s.1, c[0], req, n - 1).0), Engine(v, s.1, c[0], req, n - 1).1))
  {
    var j := NextHooked(ls, i);
    HookedSkip(ls, i, j);
    if i > 0 {
      ChainAcyclic(v, c, ls, i);
      assert Outcome(v, memo, c[0], req) == Outcome(v, memo, c[i], req);
    }
    CallAt(v, memo, c, ls, i, req);
    var s := Step(memo, c, ls, i, j, req.Key());
    EngineStep(v, memo, c[0], req, HookedFrom(ls, i), s.0, s.1);
  }

  /**
   * The engine's calls from class `i` on: as many as there are classes with
   * the callback, answered one class after the other, give the answer
   * `Reached` describes and leave the memo as `MemoAfter` describes.
   */
  lemma {:induction false} EngineWalk(v: View, memo: Memo, c: seq<ClassDefinition>, ls: seq<Answer>, i: nat, req: Request)
    requires Sound(v) && ShapedView(v, req) && Known(v, memo) && IsChain(v, c, ls)
    requires i <= |c| && (i < |c| ==> Level(memo, c, req.Key(), i))
    ensures Engine(v, memo, c[0], req, HookedFrom(ls, i)) == (Reached(ls, i), MemoAfter(memo, c, ls, i, req.Key()))
    decreases |c| - i
  {
    var key := req.Key();
    var j := NextHooked(ls, i);
    HookedSkip(ls, i, j);
    ReachedSkip(ls, i, j);
    if j < |c| {
      EngineCall(v, memo, c, ls, i, req);
      ReachedStep(memo, c, ls, i, key);
      if !Decides(ls[j]) {
        var s := Step(memo, c, ls, i, j, key);
        EngineWalk(v, s.1, c, ls, j + 1, req);
      }
    }
  }

  /**
   * A lookup that starts at the leaf is answered by the first class whose
   * callback throws or accepts; after an accepting answer the memo holds
   * no entry for the object, after an exception the entry names the class
   * that threw (none when it was the leaf).
   */
  lemma LookupDecided(v: View, memo: Memo, c: seq<ClassDefinition>, ls: seq<Answer>, req: Request)
    requires Sound(v) && ShapedView(v, req) && Known(v, memo) && IsChain(v, c, ls)
    requires Level(memo, c, req.Key(), 0) && !req.GetPropertyNames? && FirstDecisive(ls, 0) < |c|
    ensures var d := FirstDecisive(ls, 0);
      var (x, m) := Engine(v, memo, c[0], req, HookedFrom(ls, 0));
      && x == ls[d].value
      && (x.Success? ==> req.Key() !in m)
      && (x.Failure? ==> if d == 0 then m == memo else req.Key() in m && m[req.Key()] == c[d])
  {
    EngineWalk(v, memo, c, ls, 0, req);
    forall k | 0 <= k < |ls|
      ensures NamesOf(ls[k]) == []
    {
      if ls[k].Some? {
        assert Shaped(req, v[c[k]].answer.value);
      }
    }
    ReachedDecisive(ls, 0);
    MemoDecided(memo, c, ls, 0, req.Key());
  }

  /**
   * A lookup in which every callback declines is declined, with the names
   * every callback added in chain order; the memo is left as the last
   * class with the callback pinned it: naming the class after it, or
   * without an entry when that class is the root or no class has the
   * callback.
   */
  lemma LookupDeclined(v: View, memo: Memo, c: seq<ClassDefinition>, ls: seq<Answer>, req: Request)
    requires Sound(v) && ShapedView(v, req) && Known(v, memo) && IsChain(v, c, ls)
    requires req.Key() !in memo && FirstDecisive(ls, 0) == |c|
    ensures var (x, m) := Engine(v, memo, c[0], req, HookedFrom(ls, 0));
      var last := LastHooked(ls, 0);
      && x == Success(Reply(false, 0, NamesFrom(ls, 0)))
      && (last.None? || last.value + 1 == |c| ==> m == memo)
      && (last.Some? && last.value + 1 < |c| ==> m == memo[req.Key() := c[last.value + 1]])
  {
    EngineWalk(v, memo, c, ls, 0, req);
    ReachedNames(ls, 0);
    MemoDeclined(memo, c, ls, 0, req.Key());
    assert memo - {req.Key()} == memo;
  }

  /**
   * While the memo names a class above the leaf and no class from there
   * up has the callback, a call on the leaf is declined at once and the
   * entry removed, whatever the leaf's own callback would answer.
   */
  lemma PinnedCallMisses(v: View, memo: Memo, c: seq<ClassDefinition>, ls: seq<Answer>, k: nat, req: Request)
    requires Sound(v) && ShapedView(v, req) && Known(v, memo) && IsChain(v, c, ls)
    requires 0 < k < |c| && Level(memo, c, req.Key(), k) && NextHooked(ls, k) == |c|
    ensures Outcome(v, memo, c[0], req) == (Declined(req, None), memo - {req.Key()})
  {
    ChainAcyclic(v, c, ls, k);
    assert Outcome(v, memo, c[0], req) == Outcome(v, memo, c[k], req);
    CallAt(v, memo, c, ls, k, req);
  }
}
