/**
  Lemon's FindFollowSets: follow sets are pushed along propagation links until
  nothing changes, skipping configurations already marked COMPLETE.
 */
module FollowSets {
  import opened FirstSets

  // ------------------------------------------------------------- link graph

  /** Configuration b is reached from a along n propagation links. */
  ghost predicate Path(links: seq<seq<nat>>, a: nat, b: nat, n: nat)
    decreases n
  {
    if n == 0 then a == b
    else exists m: nat :: Path(links, a, m, n - 1) && m < |links| && b in links[m]
  }

  ghost predicate Reaches(links: seq<seq<nat>>, a: nat, b: nat) {
    exists n: nat :: Path(links, a, b, n)
  }

  /** The links and states talk about the same `n` configurations, and every configuration is in some state. */
  ghost predicate ValidGraph(states: seq<seq<nat>>, links: seq<seq<nat>>) {
    && (forall c, k :: 0 <= c < |links| && 0 <= k < |links[c]| ==> links[c][k] < |links|)
    && (forall i, k :: 0 <= i < |states| && 0 <= k < |states[i]| ==> states[i][k] < |links|)
    && (forall c: nat :: c < |links| ==> Listed(states, c))
  }

  ghost predicate Listed(states: seq<seq<nat>>, c: nat) {
    exists i :: 0 <= i < |states| && c in states[i]
  }

  ghost predicate Shape(links: seq<seq<nat>>, w: nat, f: seq<seq<bool>>) {
    |f| == |links| && forall c :: 0 <= c < |f| ==> |f[c]| == w
  }

  /** Some configuration that reaches c had t from the start. */
  ghost predicate Inherits(links: seq<seq<nat>>, init: seq<seq<bool>>, c: nat, t: nat) {
    exists b: nat :: b < |init| && t < |init[b]| && init[b][t] && Reaches(links, b, c)
  }

  ghost predicate Justified(links: seq<seq<nat>>, init: seq<seq<bool>>, f: seq<seq<bool>>) {
    && (forall c: nat, t: nat :: c < |f| && t < |f[c]| && f[c][t] ==> Inherits(links, init, c, t))
    && |init| == |f| && (forall c :: 0 <= c < |f| ==> Subset(init[c], f[c]))
  }

  /** What configuration c knows has been passed on along all its links. */
  ghost predicate Settled(links: seq<seq<nat>>, f: seq<seq<bool>>, c: nat) {
    c < |links| == |f| && forall k :: 0 <= k < |links[c]| ==> links[c][k] < |f| && Subset(f[c], f[links[c][k]])
  }

  lemma PathNext(links: seq<seq<nat>>, init: seq<seq<bool>>, c: nat, k: nat, t: nat)
    requires c < |links| && k < |links[c]| && Inherits(links, init, c, t)
    ensures Inherits(links, init, links[c][k], t)
  {
    var b: nat :| b < |init| && t < |init[b]| && init[b][t] && Reaches(links, b, c);
    var n: nat :| Path(links, b, c, n);
    assert Path(links, b, links[c][k], n + 1);
    assert Reaches(links, b, links[c][k]);
  }

  lemma {:induction false} SettledAlongPath(links: seq<seq<nat>>, f: seq<seq<bool>>, a: nat, b: nat, n: nat)
    requires |f| == |links| && (forall c: nat :: c < |links| ==> Settled(links, f, c))
    requires a < |links| && Path(links, a, b, n)
    ensures b < |f| && Subset(f[a], f[b])
    decreases n
  {
    if n > 0 {
      var m: nat :| Path(links, a, m, n - 1) && m < |links| && b in links[m];
      SettledAlongPath(links, f, a, m, n - 1);
      assert Settled(links, f, m);
    }
  }

  /** The union over link `k` of c keeps everything that held, and settles that link. */
  lemma PushOne(links: seq<seq<nat>>, w: nat, init: seq<seq<bool>>, f: seq<seq<bool>>, c: nat, k: nat, row: seq<bool>)
    requires Shape(links, w, f) && Justified(links, init, f)
    requires c < |links| && k < |links[c]| && links[c][k] < |f|
    requires |row| == w && forall t :: 0 <= t < w ==> (row[t] <==> f[links[c][k]][t] || f[c][t])
    ensures var d := links[c][k];
            var f' := f[d := row];
            && Shape(links, w, f') && Justified(links, init, f')
            && (forall e :: 0 <= e < |f| ==> Subset(f[e], f'[e]))
            && Subset(f'[c], row) && f'[c] == f[c]
            && (row != f[d] ==> Missing(f') < Missing(f))
            && (row == f[d] ==> f' == f)
  {
    var d := links[c][k];
    assert c == d ==> row == f[c];
    assert Subset(f[d], row);
    forall t: nat | t < w && row[t] ensures Inherits(links, init, d, t) {
      if f[c][t] {
        PathNext(links, init, c, k, t);
      }
    }
    if row != f[d] {
      MissingShrinks(f, d, row);
    }
  }

  lemma StillSettled(links: seq<seq<nat>>, f: seq<seq<bool>>, f': seq<seq<bool>>, e: nat)
    requires Settled(links, f, e) && |f'| == |f| && f'[e] == f[e]
    requires forall x :: 0 <= x < |f| ==> Subset(f[x], f'[x])
    ensures Settled(links, f', e)
  {
  }

  ghost predicate CompleteAreSettled(links: seq<seq<nat>>, f: seq<seq<bool>>, complete: seq<bool>) {
    |complete| == |links| && forall e: nat :: e < |links| && complete[e] ==> Settled(links, f, e)
  }

  /** Pushes the set of c along all its links; a configuration that gains something becomes INCOMPLETE. */
  method Push(links: seq<seq<nat>>, ghost w: nat, ghost init: seq<seq<bool>>, fws: array<seq<bool>>,
              complete: array<bool>, c: nat) returns (changed: bool)
    requires c < |links| && forall k :: 0 <= k < |links[c]| ==> links[c][k] < |links|
    requires fws.Length == complete.Length == |links| && !complete[c]
    requires Shape(links, w, fws[..]) && Justified(links, init, fws[..])
    requires CompleteAreSettled(links, fws[..], complete[..])
    modifies fws, complete
    ensures Shape(links, w, fws[..]) && Justified(links, init, fws[..])
    ensures CompleteAreSettled(links, fws[..], complete[..])
    ensures changed ==> Missing(fws[..]) < Missing(old(fws[..]))
    ensures !changed ==> fws[..] == old(fws[..]) && complete[..] == old(complete[..])[c := true]
  {
    hide Justified, Missing, Settled;
    changed := false;
    ghost var f0 := fws[..];
    for k := 0 to |links[c]|
      invariant Shape(links, w, fws[..]) && Justified(links, init, fws[..])
      invariant CompleteAreSettled(links, fws[..], complete[..]) && !complete[c]
      invariant forall q :: 0 <= q < k ==> Subset(fws[c], fws[links[c][q]])
      invariant changed ==> Missing(fws[..]) < Missing(f0)
      invariant !changed ==> fws[..] == f0 && complete[..] == old(complete[..])
    {
      var d := links[c][k];
      ghost var f, done := fws[..], complete[..];
      var row, change := SetUnion(fws[d], fws[c]);
      PushOne(links, w, init, f, c, k, row);
      fws[d] := row;
      assert fws[..] == f[d := row];
      if change {
        complete[d] := false;
        changed := true;
      }
      forall e: nat | e < |links| && complete[e] ensures Settled(links, fws[..], e) {
        assert done[e] && fws[..][e] == f[e];
        StillSettled(links, f, fws[..], e);
      }
    }
    complete[c] := true;
    SettledNow(links, fws[..], c);
  }

  lemma SettledNow(links: seq<seq<nat>>, f: seq<seq<bool>>, c: nat)
    requires c < |links| == |f| && forall k :: 0 <= k < |links[c]| ==> links[c][k] < |f| && Subset(f[c], f[links[c][k]])
    ensures Settled(links, f, c)
  {
  }

  /**
    The worklist ends with the least solution: each set is the union of the
    initial sets of all configurations that reach it through links.
   */
  method FindFollowSets(states: seq<seq<nat>>, links: seq<seq<nat>>, fws: array<seq<bool>>, w: nat)
    requires ValidGraph(states, links) && Shape(links, w, fws[..])
    modifies fws
    ensures Shape(links, w, fws[..])
    ensures forall c: nat, t: nat :: c < |links| && t < w ==> (fws[c][t] <==> Inherits(links, old(fws[..]), c, t))
  {
    hide Justified, Missing, Inherits, Settled;
    ghost var init := fws[..];
    JustifiedAtStart(links, w, init);
    var complete := new bool[|links|](_ => false);
    var progress := true;
    while progress
      invariant Shape(links, w, fws[..]) && Justified(links, init, fws[..])
      invariant CompleteAreSettled(links, fws[..], complete[..])
      invariant !progress ==> forall i :: 0 <= i < |states| ==> AllComplete(complete[..], states[i])
      decreases Missing(fws[..]), progress
    {
      progress := false;
      ghost var f0 := fws[..];
      for i := 0 to |states|
        invariant Shape(links, w, fws[..]) && Justified(links, init, fws[..])
        invariant CompleteAreSettled(links, fws[..], complete[..])
        invariant progress ==> Missing(fws[..]) < Missing(f0)
        invariant !progress ==> fws[..] == f0 && forall p :: 0 <= p < i ==> AllComplete(complete[..], states[p])
      {
        for j := 0 to |states[i]|
          invariant Shape(links, w, fws[..]) && Justified(links, init, fws[..])
          invariant CompleteAreSettled(links, fws[..], complete[..])
          invariant progress ==> Missing(fws[..]) < Missing(f0)
          invariant !progress ==> fws[..] == f0 && forall p :: 0 <= p < i ==> AllComplete(complete[..], states[p])
          invariant !progress ==> AllComplete(complete[..], states[i][..j])
        {
          var c := states[i][j];
          if !complete[c] {
            var changed := Push(links, w, init, fws, complete, c);
            progress := progress || changed;
          }
        }
        assert states[i][..|states[i]|] == states[i];
      }
    }
    Exact(states, links, w, init, fws[..], complete[..]);
  }

  ghost predicate AllComplete(complete: seq<bool>, cs: seq<nat>) {
    forall k :: 0 <= k < |cs| ==> cs[k] < |complete| && complete[cs[k]]
  }

  lemma JustifiedAtStart(links: seq<seq<nat>>, w: nat, init: seq<seq<bool>>)
    requires Shape(links, w, init)
    ensures Justified(links, init, init)
  {
    forall c: nat, t: nat | c < |init| && t < |init[c]| && init[c][t] ensures Inherits(links, init, c, t) {
      assert Path(links, c, c, 0);
    }
  }

  lemma Exact(states: seq<seq<nat>>, links: seq<seq<nat>>, w: nat, init: seq<seq<bool>>, f: seq<seq<bool>>, complete: seq<bool>)
    requires ValidGraph(states, links) && Shape(links, w, f) && Shape(links, w, init) && Justified(links, init, f)
    requires CompleteAreSettled(links, f, complete)
    requires forall i :: 0 <= i < |states| ==> AllComplete(complete, states[i])
    ensures forall c: nat, t: nat :: c < |links| && t < w ==> (f[c][t] <==> Inherits(links, init, c, t))
  {
    forall c: nat | c < |links| ensures Settled(links, f, c) {
      assert Listed(states, c);
      var i :| 0 <= i < |states| && c in states[i];
      assert AllComplete(complete, states[i]);
    }
    forall c: nat, t: nat | c < |links| && t < w && Inherits(links, init, c, t) ensures f[c][t] {
      var b: nat :| b < |init| && t < |init[b]| && init[b][t] && Reaches(links, b, c);
      var n: nat :| Path(links, b, c, n);
      SettledAlongPath(links, f, b, c, n);
    }
  }
}
