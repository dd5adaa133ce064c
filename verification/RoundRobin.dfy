/**
  Round-robin choice of a backend host: the next one after the last used that has
  an active process.
 */
module RoundRobin {

  /** The host `d` places after the one behind `last`, going round. */
  function Place(n: nat, last: int, d: nat): (i: nat)
    requires n > 0 && -1 <= last < n && d < n
    ensures i < n
  {
    if last + 1 + d < n then last + 1 + d else last + 1 + d - n
  }

  /** How far host h is from its turn. */
  function Distance(n: nat, last: int, h: nat): (d: nat)
    requires -1 <= last < n && h < n
    ensures d < n && Place(n, last, d) == h
  {
    if h > last then h - last - 1 else h - last - 1 + n
  }

  ghost predicate NoneActive(active: seq<nat>) {
    forall i :: 0 <= i < |active| ==> active[i] == 0
  }

  /** Host i is the first active one after `last`. */
  ghost predicate FirstAfter(active: seq<nat>, last: int, i: nat)
    requires -1 <= last < |active|
  {
    && i < |active| && active[i] > 0
    && forall d :: 0 <= d < Distance(|active|, last, i) ==> active[Place(|active|, last, d)] == 0
  }

  class Extension {
    var lastUsed: int

    constructor ()
      ensures lastUsed == -1
    {
      lastUsed := -1;
    }

    /** The hosts' active processes are given; -1 if there is no active host. */
    method Choose(active: seq<nat>) returns (ndx: int)
      requires |active| >= 2 && -1 <= lastUsed < |active|
      modifies this
      ensures -1 <= ndx < |active| && lastUsed == ndx
      ensures ndx == -1 <==> NoneActive(active)
      ensures ndx >= 0 ==> FirstAfter(active, old(lastUsed), ndx)
    {
      var n, k := |active|, lastUsed;
      ndx := k + 1;
      var host := 0;
      while ndx < n && active[ndx] == 0
        invariant k < ndx <= n && 0 <= host < n
        invariant forall i :: k < i < ndx ==> active[i] == 0
        invariant ndx > k + 1 ==> host == ndx - 1
      {
        host := ndx;
        ndx := ndx + 1;
      }
      if ndx < n {
        host := ndx;
      } else {
        ndx := 0;
        while ndx <= k
          invariant 0 <= ndx <= k + 1
          invariant forall i :: 0 <= i < ndx ==> active[i] == 0
          invariant ndx > 0 ==> host == ndx - 1
          invariant 0 <= host < n && (ndx == 0 && k == -1 ==> active[host] == 0)
        {
          host := ndx;
          if active[host] != 0 { break; }
          ndx := ndx + 1;
        }
        if active[host] == 0 {
          ndx := -1;
        }
      }
      lastUsed := ndx;
    }
  }

  // ----------------------------------------------------------- bounded waiting

  /** A run of selections while hosts come and go: `chosen[t + 1]` follows `chosen[t]`. */
  ghost predicate Run(n: nat, actives: seq<seq<nat>>, chosen: seq<int>)
  {
    && |chosen| == |actives| + 1
    && (forall t :: 0 <= t < |chosen| ==> -1 <= chosen[t] < n)
    && (forall t :: 0 <= t < |actives| ==> |actives[t]| == n)
    && (forall t :: 0 <= t < |actives| ==> Selects(actives[t], chosen[t], chosen[t + 1]))
  }

  ghost predicate Selects(active: seq<nat>, last: int, next: int)
    requires -1 <= last < |active|
  {
    if NoneActive(active) then next == -1 else next >= 0 && FirstAfter(active, last, next)
  }

  /** Each selection that passes over an active host brings its turn nearer. */
  lemma Nearer(active: seq<nat>, last: int, next: int, h: nat)
    requires -1 <= last < |active| && -1 <= next < |active| && h < |active| && active[h] > 0 && Selects(active, last, next) && next != h
    ensures next >= 0 && Distance(|active|, next, h) < Distance(|active|, last, h)
  {
    var n, d := |active|, Distance(|active|, last, h);
    assert !NoneActive(active);
    assert active[Place(n, last, d)] > 0;
  }

  /** A host that stays active is chosen within as many selections as there are hosts, whatever the others do. */
  lemma {:induction false} BoundedWaiting(n: nat, actives: seq<seq<nat>>, chosen: seq<int>, h: nat)
    requires h < n && Run(n, actives, chosen) && |actives| > Distance(n, chosen[0], h)
    requires forall t :: 0 <= t < |actives| ==> actives[t][h] > 0
    ensures exists t :: 1 <= t <= Distance(n, chosen[0], h) + 1 && chosen[t] == h
    decreases |actives|
  {
    if chosen[1] == h {
    } else {
      assert Selects(actives[0], chosen[0], chosen[0 + 1]);
      Nearer(actives[0], chosen[0], chosen[1], h);
      var as', cs' := actives[1..], chosen[1..];
      RunTail(n, actives, chosen);
      BoundedWaiting(n, as', cs', h);
      var t :| 1 <= t <= Distance(n, cs'[0], h) + 1 && cs'[t] == h;
      assert chosen[t + 1] == h;
    }
  }

  lemma RunTail(n: nat, actives: seq<seq<nat>>, chosen: seq<int>)
    requires Run(n, actives, chosen) && actives != []
    ensures Run(n, actives[1..], chosen[1..])
  {
    var as', cs' := actives[1..], chosen[1..];
    forall t | 0 <= t < |as'| ensures Selects(as'[t], cs'[t], cs'[t + 1]) {
      assert Selects(actives[t + 1], chosen[t + 1], chosen[t + 1 + 1]);
    }
  }

  /** Selections one after another make a run. */
  method ChooseAll(e: Extension, n: nat, actives: seq<seq<nat>>) returns (chosen: seq<int>)
    requires n >= 2 && -1 <= e.lastUsed < n && forall t :: 0 <= t < |actives| ==> |actives[t]| == n
    modifies e
    ensures Run(n, actives, chosen) && chosen[0] == old(e.lastUsed)
  {
    chosen := [e.lastUsed];
    var t := 0;
    while t < |actives|
      invariant t <= |actives| && -1 <= e.lastUsed < n && |chosen| == t + 1 && chosen[t] == e.lastUsed && chosen[0] == old(e.lastUsed)
      invariant forall i :: 0 <= i < |chosen| ==> -1 <= chosen[i] < n
      invariant forall i :: 0 <= i < t ==> Selects(actives[i], chosen[i], chosen[i + 1])
    {
      var ndx := e.Choose(actives[t]);
      chosen := chosen + [ndx];
      t := t + 1;
    }
  }
}
