/**
  The cache of configuration conditions: nested if / else-if / else blocks whose
  results are remembered per connection, with partial invalidation when one
  request property changes.
 */
module ConditionCache {
  import opened Basics

  /** Unset: not decided yet. Skip: a precondition failed. */
  datatype Result = Unset | Skip | False | True

  /**
    One condition block. `comp` is the request property it compares; an `isElse`
    block compares nothing. Block 0 is the global context and no condition.
   */
  datatype Node = Node(comp: nat, isElse: bool, parent: Option<nat>, prev: Option<nat>, next: Option<nat>,
                       children: seq<nat>)

  /** The forest the configuration parser builds: links mirror each other, else-branches are siblings. */
  ghost predicate WellFormed(nodes: seq<Node>, ncomp: nat) {
    && |nodes| > 0
    && (forall i :: 0 <= i < |nodes| ==> WellFormedAt(nodes, ncomp, i))
  }

  ghost predicate WellFormedAt(nodes: seq<Node>, ncomp: nat, i: nat)
    requires i < |nodes|
  {
    var n := nodes[i];
    && n.comp < ncomp
    && (n.prev.Some? ==> 0 < n.prev.value < i && nodes[n.prev.value].next == Some(i) && nodes[n.prev.value].parent == n.parent)
    && (n.next.Some? ==> i < n.next.value < |nodes| && nodes[n.next.value].prev == Some(i))
    && (n.parent.Some? ==> n.parent.value < i && i in nodes[n.parent.value].children)
    && (forall k :: 0 <= k < |n.children| ==> i < n.children[k] < |nodes| && nodes[n.children[k]].parent == Some(i))
    && (i == 0 ==> n.next == None)
  }

  /** The parent whose result matters: the global context does not count. */
  function Guard(n: Node): Option<nat> {
    if n.parent.Some? && n.parent.value != 0 then n.parent else None
  }

  /** The request as conditions see it: property values, which of them are known, and the comparison itself. */
  datatype Request<!V> = Request(value: seq<V>, valid: seq<bool>, test: (nat, V) -> bool)

  ghost predicate ValidRequest<V>(rq: Request<V>, ncomp: nat) {
    |rq.value| == |rq.valid| == ncomp
  }

  ghost function Local<V>(nodes: seq<Node>, rq: Request<V>, i: nat): Result
    requires i < |nodes| && nodes[i].comp < |rq.value|
  {
    if nodes[i].isElse || rq.test(i, rq.value[nodes[i].comp]) then True else False
  }

  /** The meaning of a condition, with no cache anywhere. */
  ghost function Eval<V>(nodes: seq<Node>, ncomp: nat, rq: Request<V>, i: nat): Result
    requires WellFormed(nodes, ncomp) && ValidRequest(rq, ncomp) && i < |nodes|
    decreases i
  {
    assert WellFormedAt(nodes, ncomp, i);
    var p := if Guard(nodes[i]).Some? then Eval(nodes, ncomp, rq, nodes[i].parent.value) else True;
    if p == Unset then Unset
    else if p != True then Skip
    else
      var q := if nodes[i].prev.Some? then Eval(nodes, ncomp, rq, nodes[i].prev.value) else False;
      if q == Unset then Unset
      else if q != False then Skip
      else if !rq.valid[nodes[i].comp] then Unset
      else Local(nodes, rq, i)
  }

  /** j is i, or is nested in or an else-branch of something at or below i. */
  ghost predicate Below(nodes: seq<Node>, ncomp: nat, i: nat, j: nat)
    requires WellFormed(nodes, ncomp) && j < |nodes|
    decreases j
  {
    assert WellFormedAt(nodes, ncomp, j);
    || j == i
    || (nodes[j].parent.Some? && Below(nodes, ncomp, i, nodes[j].parent.value))
    || (nodes[j].prev.Some? && Below(nodes, ncomp, i, nodes[j].prev.value))
  }

  /** An undecided block has undecided children and an undecided else-branch. */
  ghost predicate ClosedAt(nodes: seq<Node>, result: seq<Result>, i: nat)
    requires i < |nodes| == |result|
  {
    result[i] == Unset ==>
      && (forall k :: 0 <= k < |nodes[i].children| ==> nodes[i].children[k] < |result| && result[nodes[i].children[k]] == Unset)
      && (nodes[i].next.Some? ==> nodes[i].next.value < |result| && result[nodes[i].next.value] == Unset)
  }

  ghost predicate Closed(nodes: seq<Node>, result: seq<Result>, from: nat)
    requires |nodes| == |result|
  {
    forall i :: from <= i < |nodes| ==> ClosedAt(nodes, result, i)
  }

  // ------------------------------------------------------- structural lemmas

  lemma {:induction false} BelowUp(nodes: seq<Node>, ncomp: nat, i: nat, j: nat)
    requires WellFormed(nodes, ncomp) && j < |nodes| && Below(nodes, ncomp, i, j)
    ensures i <= j
    decreases j
  {
    assert WellFormedAt(nodes, ncomp, j);
    if j != i {
      if nodes[j].parent.Some? && Below(nodes, ncomp, i, nodes[j].parent.value) {
        BelowUp(nodes, ncomp, i, nodes[j].parent.value);
      } else {
        BelowUp(nodes, ncomp, i, nodes[j].prev.value);
      }
    }
  }

  lemma {:induction false} BelowTrans(nodes: seq<Node>, ncomp: nat, i: nat, c: nat, j: nat)
    requires WellFormed(nodes, ncomp) && c < |nodes| && j < |nodes|
    requires Below(nodes, ncomp, i, c) && Below(nodes, ncomp, c, j)
    ensures Below(nodes, ncomp, i, j)
    decreases j
  {
    assert WellFormedAt(nodes, ncomp, j);
    if j != c {
      if nodes[j].parent.Some? && Below(nodes, ncomp, c, nodes[j].parent.value) {
        BelowTrans(nodes, ncomp, i, c, nodes[j].parent.value);
      } else {
        BelowTrans(nodes, ncomp, i, c, nodes[j].prev.value);
      }
    }
  }

  lemma BelowStep(nodes: seq<Node>, ncomp: nat, i: nat, j: nat)
    requires WellFormed(nodes, ncomp) && i < |nodes| && j < |nodes|
    requires nodes[i].next == Some(j) || j in nodes[i].children
    ensures Below(nodes, ncomp, i, j)
  {
    assert WellFormedAt(nodes, ncomp, i);
    assert WellFormedAt(nodes, ncomp, j);
    assert Below(nodes, ncomp, i, i);
  }

  /** Everything below i, other than i, is below its next else-branch or below the head of a chain of children. */
  lemma {:induction false} FirstStep(nodes: seq<Node>, ncomp: nat, i: nat, j: nat)
    requires WellFormed(nodes, ncomp) && i < |nodes| && j < |nodes| && i != j && Below(nodes, ncomp, i, j)
    ensures || (nodes[i].next.Some? && nodes[i].next.value < |nodes| && Below(nodes, ncomp, nodes[i].next.value, j))
            || (exists k :: 0 <= k < |nodes[i].children| && nodes[i].children[k] < |nodes|
                            && nodes[nodes[i].children[k]].prev == None && Below(nodes, ncomp, nodes[i].children[k], j))
    decreases j
  {
    assert WellFormedAt(nodes, ncomp, j);
    assert WellFormedAt(nodes, ncomp, i);
    if nodes[j].parent == Some(i) && nodes[j].prev == None {
      var k :| 0 <= k < |nodes[i].children| && nodes[i].children[k] == j;
      assert Below(nodes, ncomp, j, j);
    } else if nodes[j].prev == Some(i) {
      assert Below(nodes, ncomp, j, j);
    } else {
      var m := if nodes[j].prev.Some? && (nodes[j].parent == Some(i) || Below(nodes, ncomp, i, nodes[j].prev.value))
               then nodes[j].prev.value else nodes[j].parent.value;
      assert WellFormedAt(nodes, ncomp, m);
      if nodes[j].parent == Some(i) {
        assert Below(nodes, ncomp, i, i);
      }
      assert Below(nodes, ncomp, i, m);
      FirstStep(nodes, ncomp, i, m);
    }
  }

  /** In a closed cache an undecided block has nothing decided below it. */
  lemma {:induction false} UnsetBelow(nodes: seq<Node>, ncomp: nat, result: seq<Result>, i: nat, j: nat)
    requires WellFormed(nodes, ncomp) && |result| == |nodes| && 0 < i < |nodes| && j < |nodes|
    requires Closed(nodes, result, i) && result[i] == Unset && Below(nodes, ncomp, i, j)
    ensures result[j] == Unset
    decreases j
  {
    assert WellFormedAt(nodes, ncomp, j);
    if j != i {
      var m := if nodes[j].parent.Some? && Below(nodes, ncomp, i, nodes[j].parent.value)
               then nodes[j].parent.value else nodes[j].prev.value;
      BelowUp(nodes, ncomp, i, m);
      UnsetBelow(nodes, ncomp, result, i, m);
      assert ClosedAt(nodes, result, m);
      assert WellFormedAt(nodes, ncomp, m);
    }
  }

  /** The cache after everything below i has been cleared. */
  ghost predicate ClearedBelow(nodes: seq<Node>, ncomp: nat, old_: seq<Result>, new_: seq<Result>, i: nat)
    requires WellFormed(nodes, ncomp)
  {
    |old_| == |new_| == |nodes| &&
    forall j :: 0 <= j < |nodes| ==> new_[j] == if Below(nodes, ncomp, i, j) then Unset else old_[j]
  }

  lemma ClearingKeepsClosed(nodes: seq<Node>, ncomp: nat, old_: seq<Result>, new_: seq<Result>, c: nat, from: nat)
    requires WellFormed(nodes, ncomp) && ClearedBelow(nodes, ncomp, old_, new_, c) && Closed(nodes, old_, from)
    ensures Closed(nodes, new_, from)
  {
    forall i | from <= i < |nodes| && new_[i] == Unset ensures ClosedAt(nodes, new_, i) {
      assert WellFormedAt(nodes, ncomp, i);
      assert ClosedAt(nodes, old_, i);
      forall k | 0 <= k < |nodes[i].children| ensures new_[nodes[i].children[k]] == Unset {
        var ch := nodes[i].children[k];
        assert WellFormedAt(nodes, ncomp, ch);
        if Below(nodes, ncomp, c, i) {
          BelowStep(nodes, ncomp, i, ch);
          BelowTrans(nodes, ncomp, c, i, ch);
        }
      }
      if nodes[i].next.Some? && Below(nodes, ncomp, c, i) {
        BelowStep(nodes, ncomp, i, nodes[i].next.value);
        BelowTrans(nodes, ncomp, c, i, nodes[i].next.value);
      }
    }
  }

  // --------------------------------------------------------- semantic lemmas

  /** Learning more about the request never changes a decided result. */
  lemma {:induction false} EvalMonotone<V>(nodes: seq<Node>, ncomp: nat, rq: Request<V>, rq': Request<V>, i: nat)
    requires WellFormed(nodes, ncomp) && ValidRequest(rq, ncomp) && ValidRequest(rq', ncomp) && i < |nodes|
    requires rq'.test == rq.test
    requires forall c :: 0 <= c < ncomp && rq.valid[c] ==> rq'.valid[c] && rq'.value[c] == rq.value[c]
    requires Eval(nodes, ncomp, rq, i) != Unset
    ensures Eval(nodes, ncomp, rq', i) == Eval(nodes, ncomp, rq, i)
    decreases i
  {
    assert WellFormedAt(nodes, ncomp, i);
    if Guard(nodes[i]).Some? {
      EvalMonotone(nodes, ncomp, rq, rq', nodes[i].parent.value);
    }
    if nodes[i].prev.Some? && Eval(nodes, ncomp, rq, nodes[i].prev.value) != Unset {
      EvalMonotone(nodes, ncomp, rq, rq', nodes[i].prev.value);
    }
  }

  /** A result depends only on the properties compared at or above the block. */
  lemma {:induction false} EvalUnaffected<V>(nodes: seq<Node>, ncomp: nat, rq: Request<V>, rq': Request<V>, item: nat, j: nat)
    requires WellFormed(nodes, ncomp) && ValidRequest(rq, ncomp) && ValidRequest(rq', ncomp) && 0 < j < |nodes|
    requires rq'.test == rq.test && rq'.valid == rq.valid
    requires forall c :: 0 <= c < ncomp && c != item ==> rq'.value[c] == rq.value[c]
    requires forall k: nat :: 0 < k < |nodes| && Below(nodes, ncomp, k, j) ==> nodes[k].comp != item
    ensures Eval(nodes, ncomp, rq', j) == Eval(nodes, ncomp, rq, j)
    decreases j
  {
    assert WellFormedAt(nodes, ncomp, j);
    assert Below(nodes, ncomp, j, j);
    if Guard(nodes[j]).Some? {
      EvalUnaffected(nodes, ncomp, rq, rq', item, nodes[j].parent.value);
    }
    if nodes[j].prev.Some? {
      EvalUnaffected(nodes, ncomp, rq, rq', item, nodes[j].prev.value);
    }
  }

  /** What the cache may claim about a request, block by block. */
  ghost predicate Agrees<V>(nodes: seq<Node>, ncomp: nat, rq: Request<V>, result: seq<Result>, local: seq<Result>)
    requires WellFormed(nodes, ncomp) && ValidRequest(rq, ncomp) && |nodes| == |result| == |local|
  {
    && result[0] == Unset
    && (forall i: nat :: 0 < i < |nodes| && result[i] != Unset ==> result[i] == Eval(nodes, ncomp, rq, i))
    && (forall i: nat :: i < |nodes| ==> LocalAgrees(nodes, ncomp, rq, local, i))
  }

  ghost predicate LocalAgrees<V>(nodes: seq<Node>, ncomp: nat, rq: Request<V>, local: seq<Result>, i: nat)
    requires WellFormed(nodes, ncomp) && ValidRequest(rq, ncomp) && i < |nodes| == |local|
  {
    assert WellFormedAt(nodes, ncomp, i);
    local[i] != Unset ==> rq.valid[nodes[i].comp] && local[i] == Local(nodes, rq, i)
  }

  /** The cache is exact for the blocks before i, as it is during an in-order pass. */
  ghost predicate ExactBefore<V>(nodes: seq<Node>, ncomp: nat, rq: Request<V>, result: seq<Result>, i: nat)
    requires WellFormed(nodes, ncomp) && ValidRequest(rq, ncomp) && i <= |nodes| == |result|
  {
    forall j: nat :: 0 < j < i ==> result[j] == Eval(nodes, ncomp, rq, j)
  }

  /** Recording the exact result of the next block of an in-order pass keeps the cache closed. */
  lemma RecordKeepsClosed<V>(nodes: seq<Node>, ncomp: nat, rq: Request<V>, result: seq<Result>, i: nat)
    requires WellFormed(nodes, ncomp) && ValidRequest(rq, ncomp) && 0 < i < |nodes| == |result|
    requires Closed(nodes, result, 1) && ExactBefore(nodes, ncomp, rq, result, i)
    requires result[i] != Unset ==> result[i] == Eval(nodes, ncomp, rq, i)
    ensures Closed(nodes, result[i := Eval(nodes, ncomp, rq, i)], 1)
  {
    var e := Eval(nodes, ncomp, rq, i);
    var result' := result[i := e];
    assert WellFormedAt(nodes, ncomp, i);
    if nodes[i].prev.Some? {
      // if i is decided so is its previous branch: by its own result, or because both are skipped with their parent
      assert WellFormedAt(nodes, ncomp, nodes[i].prev.value);
      assert Guard(nodes[nodes[i].prev.value]) == Guard(nodes[i]);
      assert e != Unset ==> Eval(nodes, ncomp, rq, nodes[i].prev.value) != Unset;
    }
    if Guard(nodes[i]).Some? {
      assert e != Unset ==> Eval(nodes, ncomp, rq, nodes[i].parent.value) != Unset;
    }
    forall m | 1 <= m < |nodes| && result'[m] == Unset ensures ClosedAt(nodes, result', m) {
      assert WellFormedAt(nodes, ncomp, m) && ClosedAt(nodes, result, m);
    }
  }

  // ------------------------------------------------- what if and else mean

  /** A block's own test: an else block always passes it. */
  ghost predicate Holds<V>(nodes: seq<Node>, rq: Request<V>, i: nat)
    requires i < |nodes| && nodes[i].comp < |rq.value|
  {
    nodes[i].isElse || rq.test(i, rq.value[nodes[i].comp])
  }

  /** Block j is an earlier branch of the chain of block i. */
  ghost predicate Earlier(nodes: seq<Node>, ncomp: nat, j: nat, i: nat)
    requires WellFormed(nodes, ncomp) && i < |nodes|
    ensures Earlier(nodes, ncomp, j, i) ==> j < i
    decreases i
  {
    assert WellFormedAt(nodes, ncomp, i);
    nodes[i].prev.Some? && (j == nodes[i].prev.value || Earlier(nodes, ncomp, j, nodes[i].prev.value))
  }

  /** Block k is block i or one that encloses it. */
  ghost predicate Encloses(nodes: seq<Node>, ncomp: nat, k: nat, i: nat)
    requires WellFormed(nodes, ncomp) && i < |nodes|
    ensures Encloses(nodes, ncomp, k, i) ==> k <= i
    decreases i
  {
    assert WellFormedAt(nodes, ncomp, i);
    k == i || (nodes[i].parent.Some? && nodes[i].parent.value != 0 && Encloses(nodes, ncomp, k, nodes[i].parent.value))
  }

  /** The branch of its chain that the tests choose. */
  ghost predicate Chosen<V>(nodes: seq<Node>, ncomp: nat, rq: Request<V>, i: nat)
    requires WellFormed(nodes, ncomp) && ValidRequest(rq, ncomp) && i < |nodes|
  {
    assert WellFormedAt(nodes, ncomp, i);
    Holds(nodes, rq, i) && NoneEarlier(nodes, ncomp, rq, i)
  }

  ghost predicate NoneEarlier<V>(nodes: seq<Node>, ncomp: nat, rq: Request<V>, i: nat)
    requires WellFormed(nodes, ncomp) && ValidRequest(rq, ncomp) && i < |nodes|
  {
    forall j: nat :: Earlier(nodes, ncomp, j, i) ==> (assert WellFormedAt(nodes, ncomp, j); !Holds(nodes, rq, j))
  }

  ghost predicate AllKnown<V>(rq: Request<V>) {
    forall c :: 0 <= c < |rq.valid| ==> rq.valid[c]
  }

  /** The block is in the global context, or the block it is nested in applies. */
  ghost predicate ParentApplies<V>(nodes: seq<Node>, ncomp: nat, rq: Request<V>, i: nat)
    requires WellFormed(nodes, ncomp) && ValidRequest(rq, ncomp) && i < |nodes|
  {
    assert WellFormedAt(nodes, ncomp, i);
    nodes[i].parent.Some? && nodes[i].parent.value != 0 ==> Eval(nodes, ncomp, rq, nodes[i].parent.value) == True
  }

  lemma {:induction false} ChainMeaning<V>(nodes: seq<Node>, ncomp: nat, rq: Request<V>, i: nat)
    requires WellFormed(nodes, ncomp) && ValidRequest(rq, ncomp) && i < |nodes| && AllKnown(rq)
    requires ParentApplies(nodes, ncomp, rq, i)
    ensures Eval(nodes, ncomp, rq, i) == True <==> Chosen(nodes, ncomp, rq, i)
    ensures Eval(nodes, ncomp, rq, i) == False <==>
              NoneEarlier(nodes, ncomp, rq, i) && (assert WellFormedAt(nodes, ncomp, i); !Holds(nodes, rq, i))
    decreases i
  {
    assert WellFormedAt(nodes, ncomp, i);
    if nodes[i].prev.Some? {
      var p := nodes[i].prev.value;
      assert WellFormedAt(nodes, ncomp, p);
      ChainMeaning(nodes, ncomp, rq, p);
      assert Earlier(nodes, ncomp, p, i);
      if NoneEarlier(nodes, ncomp, rq, i) {
        forall j: nat | Earlier(nodes, ncomp, j, p) ensures WellFormedAt(nodes, ncomp, j) && !Holds(nodes, rq, j) {
          assert Earlier(nodes, ncomp, j, i);
        }
      }
    }
  }

  /**
    Once every property is known, a block applies exactly when it and every block
    around it is the first branch of its chain whose test holds.
   */
  lemma {:induction false} AppliesExactly<V>(nodes: seq<Node>, ncomp: nat, rq: Request<V>, i: nat)
    requires WellFormed(nodes, ncomp) && ValidRequest(rq, ncomp) && i < |nodes| && AllKnown(rq)
    ensures Eval(nodes, ncomp, rq, i) == True <==>
              forall k: nat :: Encloses(nodes, ncomp, k, i) ==> Chosen(nodes, ncomp, rq, k)
    decreases i
  {
    hide Chosen, NoneEarlier;
    assert WellFormedAt(nodes, ncomp, i);
    assert Encloses(nodes, ncomp, i, i);
    if nodes[i].parent.Some? && nodes[i].parent.value != 0 {
      var p := nodes[i].parent.value;
      AppliesExactly(nodes, ncomp, rq, p);
      if Eval(nodes, ncomp, rq, p) == True {
        ChainMeaning(nodes, ncomp, rq, i);
      } else {
        var k: nat :| Encloses(nodes, ncomp, k, p) && !Chosen(nodes, ncomp, rq, k);
        assert Encloses(nodes, ncomp, k, i);
      }
    } else {
      ChainMeaning(nodes, ncomp, rq, i);
    }
  }

  /** Whatever is known, two branches of one chain never both apply: the ones before a true branch are false. */
  lemma {:induction false} OneBranch<V>(nodes: seq<Node>, ncomp: nat, rq: Request<V>, j: nat, i: nat)
    requires WellFormed(nodes, ncomp) && ValidRequest(rq, ncomp) && i < |nodes| && Earlier(nodes, ncomp, j, i)
    requires Eval(nodes, ncomp, rq, i) in {True, False}
    ensures Eval(nodes, ncomp, rq, j) == False
    decreases i
  {
    assert WellFormedAt(nodes, ncomp, i);
    if j != nodes[i].prev.value {
      OneBranch(nodes, ncomp, rq, j, nodes[i].prev.value);
    }
  }

  /** A chain that ends in else, under a parent that applies, has exactly one branch that applies. */
  lemma {:induction false} ElseTakesTheRest<V>(nodes: seq<Node>, ncomp: nat, rq: Request<V>, i: nat) returns (k: nat)
    requires WellFormed(nodes, ncomp) && ValidRequest(rq, ncomp) && i < |nodes| && AllKnown(rq) && nodes[i].isElse
    requires ParentApplies(nodes, ncomp, rq, i)
    ensures (k == i || Earlier(nodes, ncomp, k, i)) && Eval(nodes, ncomp, rq, k) == True
    ensures forall l: nat :: (l == i || Earlier(nodes, ncomp, l, i)) && Eval(nodes, ncomp, rq, l) == True ==> l == k
  {
    hide Eval, Holds;
    assert WellFormedAt(nodes, ncomp, i);
    k := FirstThatHolds(nodes, ncomp, rq, i);
    ChainMeaning(nodes, ncomp, rq, k);
    forall l: nat | (l == i || Earlier(nodes, ncomp, l, i)) && Eval(nodes, ncomp, rq, l) == True ensures l == k {
      if l != k {
        EarlierTotal(nodes, ncomp, k, l, i);
        if Earlier(nodes, ncomp, k, l) {
          OneBranch(nodes, ncomp, rq, k, l);
        } else {
          OneBranch(nodes, ncomp, rq, l, k);
        }
      }
    }
  }

  lemma {:induction false} FirstThatHolds<V>(nodes: seq<Node>, ncomp: nat, rq: Request<V>, i: nat) returns (k: nat)
    requires WellFormed(nodes, ncomp) && ValidRequest(rq, ncomp) && i < |nodes|
    requires WellFormedAt(nodes, ncomp, i) && Holds(nodes, rq, i)
    ensures (k == i || Earlier(nodes, ncomp, k, i)) && Chosen(nodes, ncomp, rq, k) && nodes[k].parent == nodes[i].parent
    decreases i
  {
    if NoneEarlier(nodes, ncomp, rq, i) { return i; }
    var j: nat :| Earlier(nodes, ncomp, j, i) && (assert WellFormedAt(nodes, ncomp, j); Holds(nodes, rq, j));
    EarlierParent(nodes, ncomp, j, i);
    k := FirstThatHolds(nodes, ncomp, rq, j);
    if k != j { EarlierTrans(nodes, ncomp, k, j, i); }
  }

  lemma {:induction false} EarlierParent(nodes: seq<Node>, ncomp: nat, j: nat, i: nat)
    requires WellFormed(nodes, ncomp) && i < |nodes| && Earlier(nodes, ncomp, j, i)
    ensures nodes[j].parent == nodes[i].parent
    decreases i
  {
    assert WellFormedAt(nodes, ncomp, i);
    if j != nodes[i].prev.value {
      EarlierParent(nodes, ncomp, j, nodes[i].prev.value);
    }
  }

  lemma {:induction false} EarlierTrans(nodes: seq<Node>, ncomp: nat, k: nat, j: nat, i: nat)
    requires WellFormed(nodes, ncomp) && i < |nodes| && Earlier(nodes, ncomp, j, i) && Earlier(nodes, ncomp, k, j)
    ensures Earlier(nodes, ncomp, k, i)
    decreases i
  {
    assert WellFormedAt(nodes, ncomp, i);
    if j != nodes[i].prev.value {
      EarlierTrans(nodes, ncomp, k, j, nodes[i].prev.value);
    }
  }

  lemma {:induction false} EarlierTotal(nodes: seq<Node>, ncomp: nat, k: nat, l: nat, i: nat)
    requires WellFormed(nodes, ncomp) && i < |nodes| && k != l
    requires (k == i || Earlier(nodes, ncomp, k, i)) && (l == i || Earlier(nodes, ncomp, l, i))
    ensures Earlier(nodes, ncomp, k, l) || Earlier(nodes, ncomp, l, k)
    decreases i
  {
    assert WellFormedAt(nodes, ncomp, i);
    if k != i && l != i {
      EarlierTotal(nodes, ncomp, k, l, nodes[i].prev.value);
    }
  }

  /** What the cache holds after a pass, once every property is known. */
  ghost predicate Applied<V>(nodes: seq<Node>, ncomp: nat, rq: Request<V>, result: seq<Result>)
    requires WellFormed(nodes, ncomp) && ValidRequest(rq, ncomp) && |result| == |nodes|
  {
    forall i: nat :: 0 < i < |nodes| ==>
      (result[i] == True <==> forall k: nat :: Encloses(nodes, ncomp, k, i) ==> Chosen(nodes, ncomp, rq, k))
  }

  lemma AppliedWhenExact<V>(nodes: seq<Node>, ncomp: nat, rq: Request<V>, result: seq<Result>)
    requires WellFormed(nodes, ncomp) && ValidRequest(rq, ncomp) && |result| == |nodes|
    requires ExactBefore(nodes, ncomp, rq, result, |nodes|) && AllKnown(rq)
    ensures Applied(nodes, ncomp, rq, result)
  {
    hide Chosen, Eval;
    forall i: nat | 0 < i < |nodes|
      ensures result[i] == True <==> forall k: nat :: Encloses(nodes, ncomp, k, i) ==> Chosen(nodes, ncomp, rq, k)
    {
      AppliesExactly(nodes, ncomp, rq, i);
    }
  }

  class Cache<V(!new)> {
    const nodes: seq<Node>
    const ncomp: nat
    var rq: Request<V>
    var result: seq<Result>
    var local: seq<Result>

    ghost predicate Shape()
      reads this
    {
      WellFormed(nodes, ncomp) && ValidRequest(rq, ncomp) && |nodes| == |result| == |local|
    }

    /** Every cached result is what evaluation without a cache gives now, and nothing below an undecided block is decided. */
    ghost predicate Coherent()
      reads this
    {
      Shape() && Agrees(nodes, ncomp, rq, result, local) && Closed(nodes, result, 1)
    }

    constructor (nodes: seq<Node>, ncomp: nat, rq: Request<V>)
      requires WellFormed(nodes, ncomp) && ValidRequest(rq, ncomp)
      ensures Coherent() && this.nodes == nodes && this.ncomp == ncomp && this.rq == rq
    {
      this.nodes, this.ncomp, this.rq := nodes, ncomp, rq;
      result, local := seq(|nodes|, _ => Unset), seq(|nodes|, _ => Unset);
      new;
      AllUnsetClosed(nodes, ncomp, result);
    }

    /** Evaluates one block, asking the cache for its parent and its previous branch. */
    method CheckNocache(i: nat) returns (r: Result)
      requires Coherent() && 0 < i < |nodes| && ExactBefore(nodes, ncomp, rq, result, i)
      modifies this`result, this`local
      ensures r == Eval(nodes, ncomp, rq, i)
      ensures result == old(result) && local == old(local)
      decreases i, 0
    {
      assert WellFormedAt(nodes, ncomp, i);
      if nodes[i].parent.Some? && nodes[i].parent.value != 0 {
        var p := CheckCached(nodes[i].parent.value);
        match p {
          case Unset => return Unset;
          case Skip => return Skip;
          case False => return Skip;
          case True =>
        }
      }
      if nodes[i].prev.Some? {
        var q := CheckCached(nodes[i].prev.value);
        match q {
          case Unset => return Unset;
          case Skip => return Skip;
          case True => return Skip;
          case False =>
        }
      }
      if !rq.valid[nodes[i].comp] { return Unset; }
      assert LocalAgrees(nodes, ncomp, rq, local, i);
      if local[i] == True || local[i] == False { return local[i]; }
      if nodes[i].isElse { return True; }
      return if rq.test(i, rq.value[nodes[i].comp]) then True else False;
    }

    /** The cached result of block i, computed and recorded if it was undecided. */
    method CheckCached(i: nat) returns (r: Result)
      requires Coherent() && 0 < i < |nodes| && ExactBefore(nodes, ncomp, rq, result, i)
      modifies this`result, this`local
      ensures Coherent()
      ensures r == Eval(nodes, ncomp, rq, i)
      ensures result == old(result)[i := r]
      ensures local == if old(result[i]) == Unset && (r == True || r == False) then old(local)[i := r] else old(local)
      decreases i, 1
    {
      RecordKeepsClosed(nodes, ncomp, rq, result, i);
      if result[i] == Unset {
        r := CheckNocache(i);
        result := result[i := r];
        if r == True || r == False {
          DecidedIsLocal(nodes, ncomp, rq, i);
          ghost var before := local;
          local := local[i := r];
          forall k: nat | k < |nodes| ensures LocalAgrees(nodes, ncomp, rq, local, k) {
            assert LocalAgrees(nodes, ncomp, rq, before, k);
          }
        }
      } else {
        r := result[i];
      }
    }

    /** One in-order pass over all blocks, as every module does when it patches its configuration. */
    method Pass()
      requires Coherent()
      modifies this`result, this`local
      ensures Coherent() && ExactBefore(nodes, ncomp, rq, result, |nodes|) && rq == old(rq)
      ensures AllKnown(rq) ==> Applied(nodes, ncomp, rq, result)
    {
      hide Applied;
      var i := 1;
      while i < |nodes|
        invariant 1 <= i <= |nodes|
        invariant Coherent() && ExactBefore(nodes, ncomp, rq, result, i)
      {
        var _ := CheckCached(i);
        i := i + 1;
      }
      if AllKnown(rq) { AppliedWhenExact(nodes, ncomp, rq, result); }
    }

    /** Clears block i and everything that depends on it, stopping at blocks already undecided. */
    method ClearNode(i: nat)
      requires Shape() && i < |nodes| && (i == 0 ==> result[0] == Unset)
      requires i > 0 ==> Closed(nodes, result, i)
      modifies this`result
      ensures Shape()
      ensures i == 0 ==> result == old(result)
      ensures i > 0 ==> ClearedBelow(nodes, ncomp, old(result), result, i)
      decreases |nodes| - i
    {
      assert WellFormedAt(nodes, ncomp, i);
      if result[i] != Unset {
        UnsetKeepsClosed(nodes, ncomp, result, i);
        result := result[i := Unset];
        ghost var start := old(result);
        var children := nodes[i].children;
        for k := 0 to |children|
          invariant Shape() && Closed(nodes, result, i + 1)
          invariant OnlyBelow(nodes, ncomp, start, result, i)
          invariant forall q :: 0 <= q < k && nodes[children[q]].prev == None ==> UnsetAllBelow(nodes, ncomp, result, children[q])
        {
          var c := children[k];
          if nodes[c].prev == None {
            ghost var before := result;
            ClearNode(c);
            ClearedStep(nodes, ncomp, start, before, result, i, c);
          }
        }
        ghost var before := result;
        if nodes[i].next.Some? {
          ClearNode(nodes[i].next.value);
          ClearedStep(nodes, ncomp, start, before, result, i, nodes[i].next.value);
        }
        ClearedAll(nodes, ncomp, start, result, i);
      } else if i > 0 {
        forall j: nat | j < |nodes| && Below(nodes, ncomp, i, j) ensures result[j] == Unset {
          UnsetBelow(nodes, ncomp, result, i, j);
        }
      }
    }
  
    /** Invalidates whatever may depend on one request property. */
    method ResetItem(item: nat)
      requires Shape() && result[0] == Unset && Closed(nodes, result, 1)
      modifies this`result, this`local
      ensures Shape() && Closed(nodes, result, 1)
      ensures forall j: nat :: j < |nodes| ==>
                result[j] == if DependsOn(nodes, ncomp, item, j) then Unset else old(result[j])
      ensures forall j: nat :: j < |nodes| ==>
                local[j] == if nodes[j].comp == item then Unset else old(local[j])
    {
      for i := 0 to |nodes|
        invariant Shape() && result[0] == Unset && Closed(nodes, result, 1)
        invariant forall j: nat :: j < |nodes| ==>
                    result[j] == if DependsBefore(nodes, ncomp, item, j, i) then Unset else old(result[j])
        invariant forall j: nat :: j < |nodes| ==>
                    local[j] == if j < i && nodes[j].comp == item then Unset else old(local[j])
      {
        if nodes[i].comp == item {
          local := local[i := Unset];
          ghost var before := result;
          ClearNode(i);
          if i > 0 {
            ClearingKeepsClosed(nodes, ncomp, before, result, i, 1);
            if Below(nodes, ncomp, i, 0) { BelowUp(nodes, ncomp, i, 0); }
          }
        }
      }
    }

    /** A request property takes a new value, and the cache is told so. */
    method ChangeItem(item: nat, v: V)
      requires Coherent() && item < ncomp
      modifies this
      ensures Coherent() && rq == old(rq).(value := old(rq.value)[item := v])
    {
      ghost var result0, local0, rq0 := result, local, rq;
      rq := rq.(value := rq.value[item := v]);
      ResetItem(item);
      ResetAgrees(nodes, ncomp, rq0, rq, result0, local0, result, local, item);
    }

    /** A property becomes known, with any value; while unknown, nothing can have depended on it. */
    method Enable(item: nat, v: V)
      requires Coherent() && item < ncomp && !rq.valid[item]
      modifies this`rq
      ensures Coherent() && rq == old(rq).(value := old(rq.value)[item := v], valid := old(rq.valid)[item := true])
    {
      ghost var rq0 := rq;
      rq := rq.(value := rq.value[item := v], valid := rq.valid[item := true]);
      LearnAgrees(nodes, ncomp, rq0, rq, result, local);
    }

    /** Back to the state at connection start. */
    method Reset()
      requires Shape()
      modifies this
      ensures Coherent() && rq == old(rq).(valid := seq(ncomp, _ => false))
      ensures forall i :: 0 <= i < |nodes| ==> result[i] == Unset && local[i] == Unset
    {
      result, local := seq(|nodes|, _ => Unset), seq(|nodes|, _ => Unset);
      rq := rq.(valid := seq(ncomp, _ => false));
      AllUnsetClosed(nodes, ncomp, result);
    }

    /**
      Any run of passes, changes, discoveries and resets leaves the cache
      coherent; a pass at its end decides every block as uncached evaluation does.
     */
    method Run(ops: seq<Op<V>>)
      requires Coherent() && forall k :: 0 <= k < |ops| ==> OpOk(ops[k], ncomp)
      modifies this
      ensures Coherent() && rq == Requests(old(rq), ncomp, ops)
      ensures ops != [] && ops[|ops| - 1].DoPass? ==>
                ExactBefore(nodes, ncomp, rq, result, |nodes|) && (AllKnown(rq) ==> Applied(nodes, ncomp, rq, result))
    {
      hide Applied, ExactBefore;
      for k := 0 to |ops|
        invariant Coherent() && rq == Requests(old(rq), ncomp, ops[..k])
        invariant k > 0 && ops[k - 1].DoPass? ==>
                    ExactBefore(nodes, ncomp, rq, result, |nodes|) && (AllKnown(rq) ==> Applied(nodes, ncomp, rq, result))
      {
        assert ops[..k + 1][..k] == ops[..k];
        match ops[k] {
          case DoPass => Pass();
          case DoChange(item, v) => ChangeItem(item, v);
          case DoEnable(item, v) => if !rq.valid[item] { Enable(item, v); } else { ChangeItem(item, v); }
          case DoReset => Reset();
        }
      }
      assert ops[..|ops|] == ops;
    }
  }

  datatype Op<V> = DoPass | DoChange(item: nat, v: V) | DoEnable(item: nat, v: V) | DoReset

  predicate OpOk<V>(op: Op<V>, ncomp: nat) {
    match op
    case DoPass => true
    case DoChange(item, _) => item < ncomp
    case DoEnable(item, _) => item < ncomp
    case DoReset => true
  }

  /** The request after a run: what the cache must agree with. */
  ghost function Requests<V>(rq: Request<V>, ncomp: nat, ops: seq<Op<V>>): (r: Request<V>)
    requires ValidRequest(rq, ncomp) && forall k :: 0 <= k < |ops| ==> OpOk(ops[k], ncomp)
    ensures ValidRequest(r, ncomp)
  {
    if ops == [] then rq
    else
      var before := Requests(rq, ncomp, ops[..|ops| - 1]);
      assert OpOk(ops[|ops| - 1], ncomp);
      match ops[|ops| - 1]
      case DoPass => before
      case DoChange(item, v) => before.(value := before.value[item := v])
      case DoEnable(item, v) => before.(value := before.value[item := v], valid := before.valid[item := true])
      case DoReset => before.(valid := seq(ncomp, _ => false))
  }

  /** Some condition on the property is at or above block j. */
  ghost predicate DependsOn(nodes: seq<Node>, ncomp: nat, item: nat, j: nat)
    requires WellFormed(nodes, ncomp) && j < |nodes|
  {
    DependsBefore(nodes, ncomp, item, j, |nodes|)
  }

  ghost predicate DependsBefore(nodes: seq<Node>, ncomp: nat, item: nat, j: nat, i: nat)
    requires WellFormed(nodes, ncomp) && j < |nodes|
  {
    exists k: nat :: 0 < k < i && k < |nodes| && nodes[k].comp == item && Below(nodes, ncomp, k, j)
  }

  /** What reset leaves in the cache agrees with the changed request. */
  lemma ResetAgrees<V>(nodes: seq<Node>, ncomp: nat, rq: Request<V>, rq': Request<V>,
                       result: seq<Result>, local: seq<Result>, result': seq<Result>, local': seq<Result>, item: nat)
    requires WellFormed(nodes, ncomp) && ValidRequest(rq, ncomp) && ValidRequest(rq', ncomp)
    requires |nodes| == |result| == |local| == |result'| == |local'| && Agrees(nodes, ncomp, rq, result, local)
    requires rq'.test == rq.test && rq'.valid == rq.valid
    requires forall c :: 0 <= c < ncomp && c != item ==> rq'.value[c] == rq.value[c]
    requires forall j: nat :: j < |nodes| ==> result'[j] == if DependsOn(nodes, ncomp, item, j) then Unset else result[j]
    requires forall j: nat :: j < |nodes| ==> local'[j] == if nodes[j].comp == item then Unset else local[j]
    ensures Agrees(nodes, ncomp, rq', result', local')
  {
    forall i: nat | 0 < i < |nodes| && result'[i] != Unset ensures result'[i] == Eval(nodes, ncomp, rq', i) {
      assert !DependsOn(nodes, ncomp, item, i);
      EvalUnaffected(nodes, ncomp, rq, rq', item, i);
    }
    forall i: nat | i < |nodes| ensures LocalAgrees(nodes, ncomp, rq', local', i) {
      assert WellFormedAt(nodes, ncomp, i) && LocalAgrees(nodes, ncomp, rq, local, i);
    }
  }

  /** Learning a property that was unknown leaves everything cached true. */
  lemma LearnAgrees<V>(nodes: seq<Node>, ncomp: nat, rq: Request<V>, rq': Request<V>, result: seq<Result>, local: seq<Result>)
    requires WellFormed(nodes, ncomp) && ValidRequest(rq, ncomp) && ValidRequest(rq', ncomp)
    requires |nodes| == |result| == |local| && Agrees(nodes, ncomp, rq, result, local)
    requires rq'.test == rq.test
    requires forall c :: 0 <= c < ncomp && rq.valid[c] ==> rq'.valid[c] && rq'.value[c] == rq.value[c]
    ensures Agrees(nodes, ncomp, rq', result, local)
  {
    forall i: nat | 0 < i < |nodes| && result[i] != Unset ensures result[i] == Eval(nodes, ncomp, rq', i) {
      EvalMonotone(nodes, ncomp, rq, rq', i);
    }
    forall i: nat | i < |nodes| ensures LocalAgrees(nodes, ncomp, rq', local, i) {
      assert WellFormedAt(nodes, ncomp, i) && LocalAgrees(nodes, ncomp, rq, local, i);
    }
  }

  lemma AllUnsetClosed(nodes: seq<Node>, ncomp: nat, result: seq<Result>)
    requires WellFormed(nodes, ncomp) && |result| == |nodes| && forall i :: 0 <= i < |nodes| ==> result[i] == Unset
    ensures Closed(nodes, result, 0)
  {
    forall i | 0 <= i < |nodes| ensures ClosedAt(nodes, result, i) {
      assert WellFormedAt(nodes, ncomp, i);
    }
  }

  lemma UnsetKeepsClosed(nodes: seq<Node>, ncomp: nat, result: seq<Result>, i: nat)
    requires WellFormed(nodes, ncomp) && i < |nodes| == |result| && Closed(nodes, result, i)
    ensures Closed(nodes, result[i := Unset], i + 1)
  {
    var result' := result[i := Unset];
    forall j | i + 1 <= j < |nodes| ensures ClosedAt(nodes, result', j) {
      assert WellFormedAt(nodes, ncomp, j) && ClosedAt(nodes, result, j);
    }
  }

  ghost predicate UnsetAllBelow(nodes: seq<Node>, ncomp: nat, result: seq<Result>, c: nat)
    requires WellFormed(nodes, ncomp) && |result| == |nodes|
  {
    forall j: nat :: j < |nodes| && Below(nodes, ncomp, c, j) ==> result[j] == Unset
  }

  /** Block i is cleared; nothing that is not below i has changed; what is below was cleared or left alone. */
  ghost predicate OnlyBelow(nodes: seq<Node>, ncomp: nat, start: seq<Result>, result: seq<Result>, i: nat)
    requires WellFormed(nodes, ncomp)
  {
    && |start| == |result| == |nodes| && i < |nodes| && result[i] == Unset
    && forall j: nat :: j < |nodes| ==>
         if Below(nodes, ncomp, i, j) then result[j] == Unset || result[j] == start[j] else result[j] == start[j]
  }

  lemma ClearedStep(nodes: seq<Node>, ncomp: nat, start: seq<Result>, before: seq<Result>, after: seq<Result>, i: nat, c: nat)
    requires WellFormed(nodes, ncomp) && i < |nodes| && c < |nodes|
    requires nodes[i].next == Some(c) || c in nodes[i].children
    requires OnlyBelow(nodes, ncomp, start, before, i) && ClearedBelow(nodes, ncomp, before, after, c)
    ensures OnlyBelow(nodes, ncomp, start, after, i) && UnsetAllBelow(nodes, ncomp, after, c)
    ensures forall d: nat :: UnsetAllBelow(nodes, ncomp, before, d) ==> UnsetAllBelow(nodes, ncomp, after, d)
    ensures Closed(nodes, before, i + 1) ==> Closed(nodes, after, i + 1)
  {
    BelowStep(nodes, ncomp, i, c);
    forall j: nat | j < |nodes| && Below(nodes, ncomp, c, j) ensures Below(nodes, ncomp, i, j) {
      BelowTrans(nodes, ncomp, i, c, j);
    }
    if Closed(nodes, before, i + 1) {
      ClearingKeepsClosed(nodes, ncomp, before, after, c, i + 1);
    }
  }

  lemma ClearedAll(nodes: seq<Node>, ncomp: nat, start: seq<Result>, result: seq<Result>, i: nat)
    requires WellFormed(nodes, ncomp) && OnlyBelow(nodes, ncomp, start, result, i)
    requires nodes[i].next.Some? ==> UnsetAllBelow(nodes, ncomp, result, nodes[i].next.value)
    requires forall q :: 0 <= q < |nodes[i].children| && nodes[i].children[q] < |nodes| && nodes[nodes[i].children[q]].prev == None ==>
               UnsetAllBelow(nodes, ncomp, result, nodes[i].children[q])
    ensures ClearedBelow(nodes, ncomp, start, result, i)
  {
    forall j: nat | j < |nodes| && Below(nodes, ncomp, i, j) ensures result[j] == Unset {
      if j != i {
        FirstStep(nodes, ncomp, i, j);
      }
    }
  }

  lemma DecidedIsLocal<V>(nodes: seq<Node>, ncomp: nat, rq: Request<V>, i: nat)
    requires WellFormed(nodes, ncomp) && ValidRequest(rq, ncomp) && i < |nodes|
    ensures WellFormedAt(nodes, ncomp, i)
    ensures Eval(nodes, ncomp, rq, i) in {True, False} ==>
              rq.valid[nodes[i].comp] && Eval(nodes, ncomp, rq, i) == Local(nodes, rq, i)
  {
    assert WellFormedAt(nodes, ncomp, i);
  }
}
