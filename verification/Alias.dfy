/**
  URL aliases: requests take the first alias, in the order of the configuration,
  that the path starts with. A check at startup, over the sorted index, refuses a
  configuration in which an alias hides a longer one.
 */
module Alias {
  import opened Basics
  import opened SortedIndex

  type Keyring = seq<Bytes>

  // ------------------------------------------------------------- specification

  /** Does an alias apply to a path? */
  predicate Matches(key: Bytes, uri: Bytes, caseless: bool) {
    |key| <= |uri| && forall i :: 0 <= i < |key| ==> if caseless then Fold(key[i]) == Fold(uri[i]) else key[i] == uri[i]
  }

  /** The position of the first alias that applies; the number of aliases if there is none. */
  ghost function First(keys: Keyring, uri: Bytes, caseless: bool): (k: nat)
    ensures k <= |keys| && (k < |keys| ==> Matches(keys[k], uri, caseless))
    ensures forall i :: 0 <= i < k ==> !Matches(keys[i], uri, caseless)
  {
    if keys == [] then 0
    else if Matches(keys[0], uri, caseless) then 0
    else
      var k := 1 + First(keys[1..], uri, caseless);
      assert forall i :: 0 < i < |keys| ==> keys[i] == keys[1..][i - 1];
      k
  }

  /** For this path, no alias that applies is longer than the first one. */
  ghost predicate FirstIsLongest(keys: Keyring, uri: Bytes, caseless: bool) {
    var f := First(keys, uri, caseless);
    forall i :: 0 <= i < |keys| && Matches(keys[i], uri, caseless) ==> f < |keys| && |keys[i]| <= |keys[f]|
  }

  /** An alias after one that is a prefix of it would never be reached. */
  ghost predicate NoneHidden(keys: Keyring) {
    forall i, j :: 0 <= i < j < |keys| ==> !(keys[i] <= keys[j])
  }

  ghost predicate LowerCase(keys: Keyring) {
    forall i :: 0 <= i < |keys| ==> Folded(keys[i]) == keys[i]
  }

  /** The startup check: from each key along the index, as long as keys start with it. */
  ghost predicate Passes(sorted: seq<nat>, keys: Keyring)
    requires forall i :: 0 <= i < |sorted| ==> sorted[i] < |keys|
  {
    forall j :: 0 <= j < |sorted| ==> RowPasses(sorted, keys, j)
  }

  ghost predicate RowPasses(sorted: seq<nat>, keys: Keyring, j: nat)
    requires j < |sorted| && forall i :: 0 <= i < |sorted| ==> sorted[i] < |keys|
  {
    RunPasses(sorted, keys, j, j + 1)
  }

  ghost predicate RunPasses(sorted: seq<nat>, keys: Keyring, j: nat, k: nat)
    requires j < |sorted| && k <= |sorted| && forall i :: 0 <= i < |sorted| ==> sorted[i] < |keys|
    decreases |sorted| - k
  {
    k == |sorted| || !(keys[sorted[j]] <= keys[sorted[k]])
    || (sorted[j] >= sorted[k] && RunPasses(sorted, keys, j, k + 1))
  }

  // -------------------------------------------------------- order and prefixes

  lemma {:induction false} PrefixLess(p: Bytes, s: Bytes)
    requires p <= s && p != s
    ensures Less(p, s)
  {
    LessAt(p, s, |p|);
  }

  /** Keys with a common prefix lie together. */
  lemma {:induction false} Between(p: Bytes, x: Bytes, y: Bytes)
    requires Less(p, x) && Less(x, y) && p <= y
    ensures p <= x
  {
    if p != [] {
      assert p[0] == y[0];
      assert p[1..] <= y[1..];
      Between(p[1..], x[1..], y[1..]);
      assert x == [x[0]] + x[1..] && p == [p[0]] + p[1..];
    }
  }

  ghost function FoldedKeys(keys: Keyring): (r: Keyring)
    ensures |r| == |keys| && forall i :: 0 <= i < |keys| ==> r[i] == Folded(keys[i])
  {
    seq(|keys|, i requires 0 <= i < |keys| => Folded(keys[i]))
  }

  /** A prefix is a prefix whatever the case. */
  lemma FoldedPrefix(p: Bytes, s: Bytes)
    requires p <= s
    ensures Folded(p) <= Folded(s)
  {
  }

  /** From place j on, keys start with keys[sorted[j]] up to place k. */
  ghost predicate Reaches(sorted: seq<nat>, keys: Keyring, j: nat, k: nat)
    requires j < k < |sorted| && forall i :: 0 <= i < |sorted| ==> sorted[i] < |keys|
  {
    forall m :: j < m <= k ==> keys[sorted[j]] <= keys[sorted[m]]
  }

  /** A run passes exactly if no later key that it reaches comes after its first key in the configuration. */
  lemma {:induction false} RunIff(sorted: seq<nat>, keys: Keyring, j: nat, k: nat)
    requires j < k <= |sorted| && forall i :: 0 <= i < |sorted| ==> sorted[i] < |keys|
    requires forall m :: j < m < k ==> keys[sorted[j]] <= keys[sorted[m]]
    ensures RunPasses(sorted, keys, j, k) <==>
              forall q :: k <= q < |sorted| && Reaches(sorted, keys, j, q) ==> sorted[j] >= sorted[q]
    decreases |sorted| - k
  {
    if k < |sorted| {
      if keys[sorted[j]] <= keys[sorted[k]] {
        RunIff(sorted, keys, j, k + 1);
        assert Reaches(sorted, keys, j, k);
      } else {
        assert forall q :: k <= q < |sorted| ==> !Reaches(sorted, keys, j, q);
      }
    }
  }

  /** Between keys[i] and keys[j] in the index there is a key that does not start with keys[i]. */
  ghost predicate Covered(keys: Keyring, i: nat, j: nat)
    requires i < |keys| && j < |keys|
  {
    exists m :: 0 <= m < |keys| && Separates(keys, i, m, j)
  }

  ghost predicate Separates(keys: Keyring, i: nat, m: nat, j: nat)
    requires i < |keys| && j < |keys| && m < |keys|
  {
    Less(Folded(keys[i]), Folded(keys[m])) && Less(Folded(keys[m]), Folded(keys[j])) && !(keys[i] <= keys[m])
  }

  lemma CoveredIff(sorted: seq<nat>, keys: Keyring, p: nat, q: nat)
    requires Indexes(sorted, FoldedKeys(keys)) && p < q < |sorted| && keys[sorted[p]] <= keys[sorted[q]]
    ensures Reaches(sorted, keys, p, q) <==> !Covered(keys, sorted[p], sorted[q])
  {
    hide Less, Folded;
    if Covered(keys, sorted[p], sorted[q]) {
      var m :| 0 <= m < |keys| && Separates(keys, sorted[p], m, sorted[q]);
      var r := PositionOf(sorted, FoldedKeys(keys), m);
      InOrder(sorted, FoldedKeys(keys), p, r);
      InOrder(sorted, FoldedKeys(keys), r, q);
    } else {
      forall r | p < r <= q ensures keys[sorted[p]] <= keys[sorted[r]] {
        if r < q {
          assert !Separates(keys, sorted[p], sorted[r], sorted[q]);
        }
      }
    }
  }

  /**
    What the check finds, for any keys: it passes exactly if every alias that hides
    another is separated from it in the index by a key that does not start with it.
   */
  lemma PassesExact(sorted: seq<nat>, keys: Keyring)
    requires Indexes(sorted, FoldedKeys(keys))
    ensures Passes(sorted, keys) <==> forall i, j :: 0 <= i < j < |keys| && keys[i] <= keys[j] ==> Covered(keys, i, j)
  {
    hide Less, Folded, Covered, Reaches;
    var fs := FoldedKeys(keys);
    forall j | 0 <= j < |sorted|
      ensures RowPasses(sorted, keys, j) <==> forall q :: j < q < |sorted| && Reaches(sorted, keys, j, q) ==> sorted[j] >= sorted[q]
    {
      RunIff(sorted, keys, j, j + 1);
    }
    if Passes(sorted, keys) {
      forall i, j | 0 <= i < j < |keys| && keys[i] <= keys[j] ensures Covered(keys, i, j) {
        var p, q := HiddenPlaces(sorted, keys, i, j);
        assert RowPasses(sorted, keys, p);
        CoveredIff(sorted, keys, p, q);
      }
    } else {
      var p :| 0 <= p < |sorted| && !RowPasses(sorted, keys, p);
      var q :| p < q < |sorted| && Reaches(sorted, keys, p, q) && sorted[p] < sorted[q];
      ReachesPrefix(sorted, keys, p, q);
      CoveredIff(sorted, keys, p, q);
    }
  }

  lemma ReachesPrefix(sorted: seq<nat>, keys: Keyring, p: nat, q: nat)
    requires p < q < |sorted| && (forall i :: 0 <= i < |sorted| ==> sorted[i] < |keys|) && Reaches(sorted, keys, p, q)
    ensures keys[sorted[p]] <= keys[sorted[q]]
  {
  }

  /** A key and one it is a prefix of stand in this order in the index. */
  lemma HiddenPlaces(sorted: seq<nat>, keys: Keyring, i: nat, j: nat) returns (p: nat, q: nat)
    requires Indexes(sorted, FoldedKeys(keys)) && i < |keys| && j < |keys| && i != j && keys[i] <= keys[j]
    ensures p < q < |sorted| && sorted[p] == i && sorted[q] == j
  {
    var fs := FoldedKeys(keys);
    p := PositionOf(sorted, fs, i);
    q := PositionOf(sorted, fs, j);
    FoldedPrefix(keys[i], keys[j]);
    IndexDistinct(sorted, fs);
    PrefixLess(fs[i], fs[j]);
    InOrder(sorted, fs, p, q);
  }

  /** Keys without capitals are never separated so: the check passes exactly if no alias hides another. */
  lemma PassesIff(sorted: seq<nat>, keys: Keyring)
    requires Indexes(sorted, keys) && LowerCase(keys)
    ensures Passes(sorted, keys) <==> NoneHidden(keys)
  {
    hide Less;
    assert FoldedKeys(keys) == keys;
    PassesExact(sorted, keys);
    forall i, j | 0 <= i < j < |keys| && keys[i] <= keys[j] ensures !Covered(keys, i, j) {
      forall m | 0 <= m < |keys| ensures !Separates(keys, i, m, j) {
        if Separates(keys, i, m, j) {
          Between(keys[i], keys[m], keys[j]);
        }
      }
    }
  }

  lemma InOrder(sorted: seq<nat>, keys: Keyring, p: nat, q: nat)
    requires Indexes(sorted, keys) && p < |sorted| && q < |sorted| && Less(keys[sorted[p]], keys[sorted[q]])
    ensures p < q
  {
    OneOf(keys[sorted[p]], keys[sorted[q]]);
  }

  // ------------------------------------------------------ first and longest

  /** Applying means being a prefix of the path, of its folding if case is ignored. */
  lemma MatchIsPrefix(key: Bytes, uri: Bytes, caseless: bool)
    ensures Matches(key, uri, caseless) <==> (if caseless then Folded(key) <= Folded(uri) else key <= uri)
  {
    var k, u := if caseless then Folded(key) else key, if caseless then Folded(uri) else uri;
    if Matches(key, uri, caseless) {
      assert u[..|k|] == k;
    } else if |key| <= |uri| {
      assert exists i :: 0 <= i < |key| && k[i] != u[i];
    }
  }

  /** The keys as the matching sees them. */
  ghost function Seen(keys: Keyring, caseless: bool): (r: Keyring)
    ensures |r| == |keys| && forall i :: 0 <= i < |keys| ==> |r[i]| == |keys[i]|
  {
    if caseless then FoldedKeys(keys) else keys
  }

  lemma LongestIfNoneHidden(keys: Keyring, uri: Bytes, caseless: bool)
    requires NoneHidden(Seen(keys, caseless))
    ensures FirstIsLongest(keys, uri, caseless)
  {
    hide First, Matches;
    var f, ks := First(keys, uri, caseless), Seen(keys, caseless);
    forall i | 0 <= i < |keys| && Matches(keys[i], uri, caseless) ensures f < |keys| && |keys[i]| <= |keys[f]| {
      if f < i {
        MatchIsPrefix(keys[i], uri, caseless);
        MatchIsPrefix(keys[f], uri, caseless);
        assert !(ks[f] <= ks[i]);
      }
    }
  }

  lemma HiddenIsNotLongest(keys: Keyring, i: nat, j: nat, caseless: bool)
    requires Distinct(Seen(keys, caseless)) && i < j < |keys| && Seen(keys, caseless)[i] <= Seen(keys, caseless)[j]
    ensures !FirstIsLongest(keys, keys[j], caseless)
  {
    hide First, Matches;
    var f, ks := First(keys, keys[j], caseless), Seen(keys, caseless);
    MatchIsPrefix(keys[i], keys[j], caseless);
    MatchIsPrefix(keys[j], keys[j], caseless);
    assert f <= i;
    MatchIsPrefix(keys[f], keys[j], caseless);
    assert ks[f] != ks[j];
  }

  /** For every path the first alias that applies is the longest, exactly if none hides another; for any distinct keys. */
  lemma LongestIff(keys: Keyring, caseless: bool)
    requires Distinct(Seen(keys, caseless))
    ensures (forall uri :: FirstIsLongest(keys, uri, caseless)) <==> NoneHidden(Seen(keys, caseless))
  {
    hide FirstIsLongest;
    var ks := Seen(keys, caseless);
    if NoneHidden(ks) {
      forall uri ensures FirstIsLongest(keys, uri, caseless) {
        LongestIfNoneHidden(keys, uri, caseless);
      }
    } else {
      var i, j :| 0 <= i < j < |ks| && ks[i] <= ks[j];
      HiddenIsNotLongest(keys, i, j, caseless);
    }
  }

  /** The keys of an index are distinct, folded or not. */
  lemma SeenDistinct(sorted: seq<nat>, keys: Keyring, caseless: bool)
    requires Indexes(sorted, FoldedKeys(keys))
    ensures Distinct(Seen(keys, caseless))
  {
    var fs := FoldedKeys(keys);
    IndexDistinct(sorted, fs);
    forall i, j | 0 <= i < j < |keys| ensures keys[i] != keys[j] {
      assert fs[i] != fs[j];
    }
  }

  /**
    For keys without capitals the check is exact: it passes if and only if for every
    path the first alias that applies is the longest.
   */
  lemma CheckExact(sorted: seq<nat>, keys: Keyring, caseless: bool)
    requires Indexes(sorted, keys) && LowerCase(keys)
    ensures Passes(sorted, keys) <==> forall uri :: FirstIsLongest(keys, uri, caseless)
  {
    hide FirstIsLongest, Passes;
    assert FoldedKeys(keys) == keys;
    PassesIff(sorted, keys);
    SeenDistinct(sorted, keys, caseless);
    LongestIff(keys, caseless);
  }

  /**
    For any keys and either way of matching: the check is right, passing exactly the
    good configurations, if and only if no alias hides another or some alias hides
    another without a key that separates the two.
   */
  lemma CheckRight(sorted: seq<nat>, keys: Keyring, caseless: bool)
    requires Indexes(sorted, FoldedKeys(keys))
    ensures (Passes(sorted, keys) <==> forall uri :: FirstIsLongest(keys, uri, caseless)) <==>
              (|| NoneHidden(Seen(keys, caseless))
               || exists i, j :: 0 <= i < j < |keys| && keys[i] <= keys[j] && !Covered(keys, i, j))
  {
    hide FirstIsLongest, Passes, Covered;
    PassesExact(sorted, keys);
    SeenDistinct(sorted, keys, caseless);
    LongestIff(keys, caseless);
    HiddenSeen(keys, caseless);
  }

  lemma HiddenSeen(keys: Keyring, caseless: bool)
    ensures NoneHidden(Seen(keys, caseless)) ==> NoneHidden(keys)
  {
    var ks := Seen(keys, caseless);
    forall i, j | 0 <= i < j < |keys| && keys[i] <= keys[j] ensures ks[i] <= ks[j] {
      FoldedPrefix(keys[i], keys[j]);
    }
  }

  /** With capitals the index is not in the order of the prefixes: "/A", "/ab", "/Ac" pass, but "/A" hides "/Ac". */
  lemma CapitalsEscape()
    ensures var keys: Keyring := [[47, 65], [47, 97, 98], [47, 65, 99]]; var sorted: seq<nat> := [0, 1, 2];
            && Indexes(sorted, FoldedKeys(keys))
            && Passes(sorted, keys) && !FirstIsLongest(keys, keys[2], false)
  {
    var keys: Keyring, sorted: seq<nat> := [[47, 65], [47, 97, 98], [47, 65, 99]], [0, 1, 2];
    var a, b, c := Folded(keys[0]), Folded(keys[1]), Folded(keys[2]);
    assert a == [47, 97] && b == [47, 97, 98] && c == [47, 97, 99];
    LessAt(a, b, 2);
    LessAt(a, c, 2);
    LessAt(b, c, 2);
    EscapeIs(sorted, keys);
  }

  lemma EscapeIs(sorted: seq<nat>, keys: Keyring)
    requires keys == [[47, 65], [47, 97, 98], [47, 65, 99]] && Indexes(sorted, FoldedKeys(keys))
    requires Less(Folded(keys[0]), Folded(keys[1])) && Less(Folded(keys[1]), Folded(keys[2]))
    ensures Passes(sorted, keys) && !FirstIsLongest(keys, keys[2], false)
  {
    hide Less, FirstIsLongest, Passes, First, Matches;
    PassesExact(sorted, keys);
    assert keys[0][1] != keys[1][1] && keys[1][1] != keys[2][1];
    assert Separates(keys, 0, 1, 2);
    SeenDistinct(sorted, keys, false);
    HiddenIsNotLongest(keys, 0, 2, false);
  }

  // ---------------------------------------------------------------- operations

  ghost function RawKeys(es: seq<Entry>): (ks: Keyring)
    requires Keyed(es)
    ensures |ks| == |es| && forall i :: 0 <= i < |es| ==> ks[i] == es[i].key.value
  {
    seq(|es|, i requires 0 <= i < |es| => es[i].key.value)
  }

  /** The check of set_defaults. */
  method CheckAliases(a: KeyedArray) returns (ok: bool)
    requires a.Valid()
    ensures forall i :: 0 <= i < a.used ==> a.sorted[..a.used][i] < |a.Entries()|
    ensures ok <==> Passes(a.sorted[..a.used], RawKeys(a.Entries()))
  {
    ghost var s, keys := a.sorted[..a.used], RawKeys(a.Entries());
    assert forall i :: 0 <= i < a.used ==> s[i] < a.used;
    var j := 0;
    while j < a.used
      invariant j <= a.used
      invariant forall i :: 0 <= i < j ==> RowPasses(s, keys, i)
    {
      assert s[j] == a.sorted[j] < a.used;
      var prefix := a.data[a.sorted[j]].value.key.value;
      var k := j + 1;
      var same := true;
      while k < a.used && same
        invariant j < k <= a.used
        invariant same ==> RunPasses(s, keys, j, j + 1) == RunPasses(s, keys, j, k)
        invariant !same ==> RunPasses(s, keys, j, j + 1)
        decreases a.used - k, same
      {
        assert s[k] == a.sorted[k] < a.used;
        var key := a.data[a.sorted[k]].value.key.value;
        if |key| < |prefix| || key[..|prefix|] != prefix {
          same := false;
        } else if a.sorted[j] < a.sorted[k] {
          assert !RowPasses(s, keys, j);
          return false;
        } else {
          k := k + 1;
        }
      }
      j := j + 1;
    }
    return true;
  }

  /**
    The check on the array itself: which configurations of any keys are accepted,
    and that without capitals these are the ones where first match is longest match.
   */
  method AcceptAliases(a: KeyedArray, caseless: bool) returns (ok: bool)
    requires a.Valid()
    ensures var keys := RawKeys(a.Entries());
            && (ok <==> forall i, j :: 0 <= i < j < |keys| && keys[i] <= keys[j] ==> Covered(keys, i, j))
            && (LowerCase(keys) ==> (ok <==> forall uri :: FirstIsLongest(keys, uri, caseless)))
  {
    hide FirstIsLongest, Passes, Covered;
    ok := CheckAliases(a);
    ghost var keys := RawKeys(a.Entries());
    assert Keys(a.Entries()) == FoldedKeys(keys);
    PassesExact(a.sorted[..a.used], keys);
    if LowerCase(keys) {
      assert FoldedKeys(keys) == keys;
      CheckExact(a.sorted[..a.used], keys, caseless);
    }
  }

  /** The physical handler: the part of the path behind the base directory is matched and rewritten. */
  method Rewrite(a: KeyedArray, path: Bytes, basedir: Bytes, caseless: bool) returns (path': Bytes, basedir': Bytes)
    requires a.Valid() && basedir != [] && basedir <= path
    ensures var es := a.Entries();
            var uri := path[if basedir[|basedir| - 1] == 47 then |basedir| - 1 else |basedir|..];
            var f := First(RawKeys(es), uri, caseless);
            if f == |es| then path' == path && basedir' == basedir
            else basedir' == (if es[f].value.Some? then es[f].value.value else [])
                 && path' == basedir' + uri[|es[f].key.value|..]
  {
    var n := if basedir[|basedir| - 1] == 47 then |basedir| - 1 else |basedir|;
    var uri := path[n..];
    ghost var keys := RawKeys(a.Entries());
    var k := 0;
    while k < a.used
      invariant k <= a.used
      invariant forall i :: 0 <= i < k ==> !Matches(keys[i], uri, caseless)
    {
      var key := a.data[k].value.key.value;
      assert key == keys[k];
      if Matches(key, uri, caseless) {
        FirstIs(keys, uri, caseless, k);
        basedir' := if a.data[k].value.value.Some? then a.data[k].value.value.value else [];
        path' := basedir' + uri[|key|..];
        return;
      }
      k := k + 1;
    }
    FirstIs(keys, uri, caseless, k);
    return path, basedir;
  }

  lemma FirstIs(keys: Keyring, uri: Bytes, caseless: bool, k: nat)
    requires k <= |keys| && (k < |keys| ==> Matches(keys[k], uri, caseless))
    requires forall i :: 0 <= i < k ==> !Matches(keys[i], uri, caseless)
    ensures First(keys, uri, caseless) == k
  {
    hide First;
    var f := First(keys, uri, caseless);
  }
}
