/**
  The keyed array: entries in the order of their insertion, and beside them an
  index sorted by key, ignoring case, that binary search uses. Entries behind the
  used part are kept for reuse.
 */
module SortedIndex {
  import opened Basics

  // ----------------------------------------------------------- order on keys

  function Fold(c: byte): byte { if 65 <= c <= 90 then c + 32 else c }

  /** Capitals become the small letters at the same place of the alphabet, and nothing else changes. */
  lemma FoldIs(c: byte)
    ensures c as char in "ABCDEFGHIJKLMNOPQRSTUVWXYZ" <==> Fold(c) != c
    ensures forall k :: 0 <= k < 26 && "ABCDEFGHIJKLMNOPQRSTUVWXYZ"[k] == c as char ==> Fold(c) as char == "abcdefghijklmnopqrstuvwxyz"[k]
  {
    if 65 <= c <= 90 {
      LetterAt(c - 65);
    }
    forall k | 0 <= k < 26 && "ABCDEFGHIJKLMNOPQRSTUVWXYZ"[k] == c as char
      ensures 65 <= c <= 90 && Fold(c) as char == "abcdefghijklmnopqrstuvwxyz"[k]
    {
      LetterAt(k);
    }
  }

  lemma LetterAt(k: nat)
    requires k < 26
    ensures "ABCDEFGHIJKLMNOPQRSTUVWXYZ"[k] as int == 65 + k && "abcdefghijklmnopqrstuvwxyz"[k] as int == 97 + k
  {
  }

  ghost function Folded(s: Bytes): (r: Bytes)
    ensures |r| == |s| && forall i :: 0 <= i < |s| ==> r[i] == Fold(s[i])
  {
    seq(|s|, i requires 0 <= i < |s| => Fold(s[i]))
  }

  /** Lexicographic order. */
  ghost predicate Less(a: Bytes, b: Bytes) {
    if a == [] then b != []
    else b != [] && (a[0] < b[0] || (a[0] == b[0] && Less(a[1..], b[1..])))
  }

  lemma {:induction false} LessIrreflexive(a: Bytes)
    ensures !Less(a, a)
  {
    if a != [] {
      LessIrreflexive(a[1..]);
    }
  }

  lemma {:induction false} LessTransitive(a: Bytes, b: Bytes, c: Bytes)
    requires Less(a, b) && Less(b, c)
    ensures Less(a, c)
  {
    if a != [] && a[0] == b[0] == c[0] {
      LessTransitive(a[1..], b[1..], c[1..]);
    }
  }

  lemma {:induction false} LessTotal(a: Bytes, b: Bytes)
    ensures Less(a, b) || a == b || Less(b, a)
  {
    if a != [] && b != [] && a[0] == b[0] {
      LessTotal(a[1..], b[1..]);
      assert a == [a[0]] + a[1..] && b == [b[0]] + b[1..];
    }
  }

  /** The first difference decides. */
  lemma {:induction false} LessAt(a: Bytes, b: Bytes, i: nat)
    requires i <= |a| && i <= |b| && a[..i] == b[..i]
    requires if i < |a| then i < |b| && a[i] < b[i] else i < |b|
    ensures Less(a, b)
  {
    if i > 0 {
      assert a[0] == a[..i][0] == b[..i][0] == b[0];
      assert a[1..][..i - 1] == a[..i][1..] == b[..i][1..] == b[1..][..i - 1];
      LessAt(a[1..], b[1..], i - 1);
    }
  }

  /** buffer_caseless_compare: the sign tells the order of the folded texts. */
  method CaselessCompare(a: Bytes, b: Bytes) returns (r: int)
    ensures r < 0 <==> Less(Folded(a), Folded(b))
    ensures r == 0 <==> Folded(a) == Folded(b)
    ensures r > 0 <==> Less(Folded(b), Folded(a))
  {
    hide Less;
    ghost var fa, fb := Folded(a), Folded(b);
    OneOf(fa, fb);
    var len := if |a| < |b| then |a| else |b|;
    for i := 0 to len
      invariant fa[..i] == fb[..i]
    {
      var ca: int, cb: int := a[i], b[i];
      if ca != cb {
        if 65 <= ca <= 90 { ca := ca + 32; }
        if 65 <= cb <= 90 { cb := cb + 32; }
        if ca != cb {
          if ca < cb { LessAt(fa, fb, i); } else { LessAt(fb, fa, i); }
          return ca - cb;
        }
      }
      assert fa[..i + 1] == fa[..i] + [fa[i]] && fb[..i + 1] == fb[..i] + [fb[i]];
    }
    if |a| == |b| {
      assert fa == fa[..len] && fb == fb[..len];
      return 0;
    }
    if |a| < |b| { LessAt(fa, fb, len); } else { LessAt(fb, fa, len); }
    return if |a| < |b| then -1 else 1;
  }

  lemma OneOf(a: Bytes, b: Bytes)
    ensures !(Less(a, b) && Less(b, a)) && !(Less(a, b) && a == b)
  {
    LessIrreflexive(a);
    if Less(a, b) && Less(b, a) {
      LessTransitive(a, b, a);
    }
  }

  // --------------------------------------------------------------- the index

  /** `sorted` lists the positions of `keys` in strictly increasing order of the keys. */
  ghost predicate Indexes(sorted: seq<nat>, keys: seq<Bytes>) {
    && |sorted| == |keys|
    && (forall i :: 0 <= i < |sorted| ==> sorted[i] < |keys|)
    && (forall i, j :: 0 <= i < j < |sorted| ==> Less(keys[sorted[i]], keys[sorted[j]]))
  }

  lemma IndexInjective(sorted: seq<nat>, keys: seq<Bytes>)
    requires Indexes(sorted, keys)
    ensures forall i, j :: 0 <= i < j < |sorted| ==> sorted[i] != sorted[j]
  {
    forall i, j | 0 <= i < j < |sorted| ensures sorted[i] != sorted[j] {
      LessIrreflexive(keys[sorted[i]]);
      assert Less(keys[sorted[i]], keys[sorted[j]]);
    }
  }

  ghost function Below(n: nat): (s: set<nat>)
    ensures |s| == n && forall k: nat :: k in s <==> k < n
  {
    if n == 0 then {} else Below(n - 1) + {n - 1}
  }

  ghost function Values(sorted: seq<nat>): (s: set<nat>)
    ensures forall k :: k in s <==> k in sorted
  {
    set k | k in sorted
  }

  lemma {:induction false} DistinctValues(sorted: seq<nat>)
    requires forall i, j :: 0 <= i < j < |sorted| ==> sorted[i] != sorted[j]
    ensures |Values(sorted)| == |sorted|
  {
    if sorted != [] {
      DistinctValues(sorted[1..]);
      assert Values(sorted) == {sorted[0]} + Values(sorted[1..]);
      assert sorted[0] !in sorted[1..];
    } else {
      assert Values(sorted) == {};
    }
  }

  /** The index is a permutation of the positions: every position is listed. */
  lemma IndexComplete(sorted: seq<nat>, keys: seq<Bytes>)
    requires Indexes(sorted, keys)
    ensures forall k :: 0 <= k < |keys| ==> k in sorted
  {
    IndexInjective(sorted, keys);
    DistinctValues(sorted);
    SubsetSameSize(Values(sorted), Below(|keys|));
    forall k | 0 <= k < |keys| ensures k in sorted {
      assert k in Below(|keys|);
    }
  }

  lemma PositionOf(sorted: seq<nat>, keys: seq<Bytes>, k: nat) returns (p: nat)
    requires Indexes(sorted, keys) && k < |keys|
    ensures p < |sorted| && sorted[p] == k
  {
    IndexComplete(sorted, keys);
    assert k in sorted;
    p :| 0 <= p < |sorted| && sorted[p] == k;
  }

  ghost predicate Distinct(keys: seq<Bytes>) {
    forall i, j :: 0 <= i < j < |keys| ==> keys[i] != keys[j]
  }

  lemma IndexDistinct(sorted: seq<nat>, keys: seq<Bytes>)
    requires Indexes(sorted, keys)
    ensures Distinct(keys)
  {
    forall i, j | 0 <= i < j < |keys| ensures keys[i] != keys[j] {
      var p := PositionOf(sorted, keys, i);
      var q := PositionOf(sorted, keys, j);
      LessIrreflexive(keys[i]);
      assert if p < q then Less(keys[sorted[p]], keys[sorted[q]]) else Less(keys[sorted[q]], keys[sorted[p]]);
    }
  }

  /** Where a key that is not there belongs. */
  ghost predicate Gap(sorted: seq<nat>, keys: seq<Bytes>, key: Bytes, pos: nat)
    requires Indexes(sorted, keys)
  {
    && pos <= |sorted|
    && (forall i :: 0 <= i < pos ==> Less(keys[sorted[i]], key))
    && (forall i :: pos <= i < |sorted| ==> Less(key, keys[sorted[i]]))
  }

  lemma GapAbsent(sorted: seq<nat>, keys: seq<Bytes>, key: Bytes, pos: nat)
    requires Indexes(sorted, keys) && Gap(sorted, keys, key, pos)
    ensures key !in keys
  {
    LessIrreflexive(key);
    forall k | 0 <= k < |keys| ensures keys[k] != key {
      var p := PositionOf(sorted, keys, k);
    }
  }

  function Inserted(sorted: seq<nat>, pos: nat): seq<nat>
    requires pos <= |sorted|
  {
    sorted[..pos] + [|sorted|] + sorted[pos..]
  }

  lemma InsertedIndexes(sorted: seq<nat>, keys: seq<Bytes>, key: Bytes, pos: nat)
    requires Indexes(sorted, keys) && Gap(sorted, keys, key, pos)
    ensures Indexes(Inserted(sorted, pos), keys + [key])
  {
    hide Less;
    var s, ks := Inserted(sorted, pos), keys + [key];
    assert forall i :: 0 <= i < pos ==> s[i] == sorted[i];
    assert s[pos] == |keys| && forall i :: pos < i < |s| ==> s[i] == sorted[i - 1];
    assert ks[|keys|] == key && forall i :: 0 <= i < |keys| ==> ks[i] == keys[i];
  }

  /** The entry at sorted[pos] goes away; the last entry takes its place. */
  function Removed(sorted: seq<nat>, pos: nat, lastPos: nat): seq<nat>
    requires pos < |sorted| && lastPos < |sorted|
  {
    var s := sorted[lastPos := sorted[pos]];
    s[..pos] + s[pos + 1..]
  }

  function Swapped<T>(es: seq<T>, ndx: nat): seq<T>
    requires ndx < |es|
  {
    es[ndx := es[|es| - 1]][..|es| - 1]
  }

  lemma RemovedIndexes(sorted: seq<nat>, keys: seq<Bytes>, pos: nat, lastPos: nat)
    requires Indexes(sorted, keys) && pos < |sorted| && lastPos < |sorted| && sorted[lastPos] == |sorted| - 1
    ensures Indexes(Removed(sorted, pos, lastPos), Swapped(keys, sorted[pos]))
  {
    hide Less;
    var n, ndx := |sorted|, sorted[pos];
    var s, ks := Removed(sorted, pos, lastPos), Swapped(keys, ndx);
    IndexInjective(sorted, keys);
    var t := sorted[lastPos := ndx];
    assert forall i :: 0 <= i < pos ==> s[i] == t[i];
    assert forall i :: pos <= i < n - 1 ==> s[i] == t[i + 1];
    assert forall i :: 0 <= i < n - 1 ==> ks[i] == if i == ndx then keys[n - 1] else keys[i];
    assert forall i :: 0 <= i < n && i != pos ==> t[i] < n - 1 && ks[t[i]] == keys[sorted[i]];
  }

  // ----------------------------------------------------------------- entries

  /** A key or value is a text, or unset. */
  datatype Entry = Entry(key: Option<Bytes>, value: Option<Bytes>, indexKey: bool)

  ghost predicate Keyed(es: seq<Entry>) {
    forall i :: 0 <= i < |es| ==> es[i].key.Some?
  }

  ghost function Keys(es: seq<Entry>): (ks: seq<Bytes>)
    requires Keyed(es)
    ensures |ks| == |es| && forall i :: 0 <= i < |es| ==> ks[i] == Folded(es[i].key.value)
  {
    seq(|es|, i requires 0 <= i < |es| => Folded(es[i].key.value))
  }

  /** The linear caseless scan. */
  ghost function Scan(es: seq<Entry>, key: Bytes): (r: Option<nat>)
    requires Keyed(es)
    ensures r.Some? ==> r.value < |es| && Folded(es[r.value].key.value) == Folded(key)
    ensures r.None? ==> forall i :: 0 <= i < |es| ==> Folded(es[i].key.value) != Folded(key)
  {
    if es == [] then None
    else if Folded(es[|es| - 1].key.value) == Folded(key) then Some(|es| - 1)
    else Scan(es[..|es| - 1], key)
  }

  ghost function Get(es: seq<Entry>, key: Bytes): Option<Entry>
    requires Keyed(es)
  {
    match Scan(es, key)
    case None => None
    case Some(i) => Some(es[i])
  }

  lemma ScanIs(es: seq<Entry>, key: Bytes, i: nat)
    requires Keyed(es) && Distinct(Keys(es)) && i < |es| && Folded(es[i].key.value) == Folded(key)
    ensures Scan(es, key) == Some(i) && Get(es, key) == Some(es[i])
  {
    assert forall j :: 0 <= j < |es| ==> Keys(es)[j] == Folded(es[j].key.value);
  }

  lemma GetIs(es: seq<Entry>, fs: seq<Entry>, key: Bytes)
    requires Keyed(es) && Distinct(Keys(es)) && Keyed(fs) && Distinct(Keys(fs))
    requires forall i :: 0 <= i < |es| && Folded(es[i].key.value) == Folded(key) ==> es[i] in fs
    requires forall i :: 0 <= i < |fs| && Folded(fs[i].key.value) == Folded(key) ==> fs[i] in es
    ensures Get(es, key) == Get(fs, key)
  {
    hide Scan;
    var r := Scan(es, key);
    if r.Some? {
      var j :| 0 <= j < |fs| && fs[j] == es[r.value];
      ScanIs(fs, key, j);
    }
  }

  /** Inserting makes one entry findable and leaves the others as they were. */
  lemma GetInserted(es: seq<Entry>, e: Entry, key: Bytes)
    requires Keyed(es + [e]) && Distinct(Keys(es + [e]))
    ensures Keyed(es) && e.key.Some?
    ensures Get(es + [e], key) == if Folded(e.key.value) == Folded(key) then Some(e) else Get(es, key)
  {
    hide Scan;
    var fs := es + [e];
    assert fs[|es|].key.Some?;
    assert fs[|es|] == e && forall i :: 0 <= i < |es| ==> fs[i] == es[i];
    assert Distinct(Keys(es)) by {
      assert forall i :: 0 <= i < |es| ==> Keys(es)[i] == Keys(fs)[i];
    }
    if Folded(e.key.value) == Folded(key) {
      ScanIs(fs, key, |es|);
    } else {
      GetIs(fs, es, key);
    }
  }

  /** Extracting makes one entry unfindable and leaves the others as they were. */
  lemma GetExtracted(es: seq<Entry>, ndx: nat, key: Bytes)
    requires Keyed(es) && Distinct(Keys(es)) && ndx < |es|
    ensures Keyed(Swapped(es, ndx)) && Distinct(Keys(Swapped(es, ndx)))
    ensures Get(Swapped(es, ndx), key) == if Folded(es[ndx].key.value) == Folded(key) then None else Get(es, key)
  {
    hide Scan;
    var fs, n := Swapped(es, ndx), |es|;
    assert forall i :: 0 <= i < n - 1 ==> fs[i] == if i == ndx then es[n - 1] else es[i];
    var ks, ls := Keys(es), Keys(fs);
    assert forall i :: 0 <= i < n - 1 ==> ls[i] == if i == ndx then ks[n - 1] else ks[i];
    if Folded(es[ndx].key.value) == Folded(key) {
      assert forall i :: 0 <= i < n - 1 ==> ls[i] != ks[ndx];
    } else {
      forall i | 0 <= i < n && Folded(es[i].key.value) == Folded(key) ensures es[i] in fs {
        assert fs[if i == n - 1 then ndx else i] == es[i];
      }
      GetIs(es, fs, key);
    }
  }

  /** Replacing an entry by one with the same key. */
  lemma GetReplaced(es: seq<Entry>, ndx: nat, e: Entry, key: Bytes)
    requires Keyed(es) && Distinct(Keys(es)) && ndx < |es| && e.key.Some? && Folded(e.key.value) == Folded(es[ndx].key.value)
    ensures Keyed(es[ndx := e]) && Keys(es[ndx := e]) == Keys(es)
    ensures Get(es[ndx := e], key) == if Folded(e.key.value) == Folded(key) then Some(e) else Get(es, key)
  {
    hide Scan;
    var fs := es[ndx := e];
    assert Keys(fs) == Keys(es);
    if Folded(e.key.value) == Folded(key) {
      ScanIs(fs, key, ndx);
    } else {
      assert forall i :: 0 <= i < |es| && i != ndx ==> fs[i] == es[i];
      GetIs(es, fs, key);
    }
  }

  // ----------------------------------------------------------------- the array

  const NOT_FOUND: nat := 0xFFFF_FFFF_FFFF_FFFF

  /** buffer_copy_int */
  function Decimal(n: nat): Bytes {
    (if n < 10 then [] else Decimal(n / 10)) + ['0' as int + n % 10]
  }

  /** The number that decimal digits stand for. */
  ghost function Number(digits: Bytes): int {
    if digits == [] then 0 else 10 * Number(digits[..|digits| - 1]) + (digits[|digits| - 1] - '0' as int)
  }

  /** A running number is written in decimal digits, without leading zeros, so different numbers give different names. */
  lemma {:induction false} DecimalIs(n: nat)
    ensures Number(Decimal(n)) == n && Decimal(n) != []
    ensures forall i :: 0 <= i < |Decimal(n)| ==> '0' as int <= Decimal(n)[i] <= '9' as int
    ensures n > 0 ==> Decimal(n)[0] != '0' as int
  {
    var d := Decimal(n);
    if n >= 10 {
      DecimalIs(n / 10);
      assert d[..|d| - 1] == Decimal(n / 10);
    } else {
      assert d == [48 + n] && d[..0] == [];
    }
  }

  /** data_string_insert_dup: a second value for a key that has one. */
  function Merged(had: Option<Bytes>, more: Option<Bytes>): Option<Bytes> {
    match had
    case None => more
    case Some(v) => Some(v + [',' as int, ' ' as int] + if more.Some? then more.value else [])
  }

  ghost function MergedAll(had: Option<Bytes>, more: seq<Bytes>): Option<Bytes>
    decreases |more|
  {
    if more == [] then had else MergedAll(Merged(had, Some(more[0])), more[1..])
  }

  /** The values joined by a comma and a space. */
  ghost function CommaList(vs: seq<Bytes>): Bytes {
    if vs == [] then [] else if |vs| == 1 then vs[0] else CommaList(vs[..|vs| - 1]) + [',' as int, ' ' as int] + vs[|vs| - 1]
  }

  /** However often values are added under a key, their list in order is what is stored. */
  lemma {:induction false} MergedIsList(first: seq<Bytes>, more: seq<Bytes>)
    requires first != []
    ensures MergedAll(Some(CommaList(first)), more) == Some(CommaList(first + more))
    decreases |more|
  {
    if more == [] {
      assert first + more == first;
    } else {
      var next := first + [more[0]];
      assert next[..|next| - 1] == first;
      MergedIsList(next, more[1..]);
      assert next + more[1..] == first + more;
    }
  }

  ghost function Present(data: seq<Option<Entry>>): (es: seq<Entry>)
    requires forall i :: 0 <= i < |data| ==> data[i].Some?
    ensures |es| == |data| && forall i :: 0 <= i < |es| ==> es[i] == data[i].value
  {
    seq(|data|, i requires 0 <= i < |data| => data[i].value)
  }

  /** Where the first entry kept for reuse is; the length if there is none. */
  ghost function UnusedAt(rest: seq<Option<Entry>>): (i: nat)
    ensures i <= |rest| && (i < |rest| ==> rest[i].Some?) && forall j :: 0 <= j < i ==> rest[j].None?
  {
    if rest == [] || rest[0].Some? then 0 else
      var i := 1 + UnusedAt(rest[1..]);
      assert forall j :: 0 < j < |rest| ==> rest[j] == rest[1..][j - 1];
      i
  }

  lemma UnusedAtIs(rest: seq<Option<Entry>>, i: nat)
    requires i <= |rest| && (i < |rest| ==> rest[i].Some?) && forall j :: 0 <= j < i ==> rest[j].None?
    ensures UnusedAt(rest) == i
  {
    hide UnusedAt;
    var k := UnusedAt(rest);
  }

  ghost function FirstUnused(rest: seq<Option<Entry>>): Option<Entry> {
    var i := UnusedAt(rest);
    if i < |rest| then rest[i] else None
  }

  /** Taking it leaves the first place free. */
  ghost function WithoutUnused(rest: seq<Option<Entry>>): seq<Option<Entry>> {
    var i := UnusedAt(rest);
    if i < |rest| then rest[i := rest[0]][0 := None] else rest
  }

  // ------------------------------------------------- the operations on a list

  /** What an array stands for: its entries in order, the places behind them, and the next running number. */
  datatype Store = Store(entries: seq<Entry>, rest: seq<Option<Entry>>, unique: nat)

  ghost predicate Consistent(st: Store) { Keyed(st.entries) && Distinct(Keys(st.entries)) }

  predicate Nameless(entry: Entry) { entry.key.None? || entry.indexKey }

  /** An entry without a key of its own is named by a running number. */
  ghost function Named(entry: Entry, unique: nat): (e: Entry)
    ensures e.key.Some?
  {
    if Nameless(entry) then entry.(key := Some(Decimal(unique)), indexKey := true) else entry
  }

  ghost function Counted(st: Store, entry: Entry): Store {
    st.(unique := st.unique + if Nameless(entry) then 1 else 0)
  }

  ghost function Room(rest: seq<Option<Entry>>): (r: seq<Option<Entry>>)
    ensures r != []
  {
    if rest == [] then seq(16, i => None) else rest
  }

  ghost function Appended(st: Store, e: Entry): Store {
    Store(st.entries + [e], Room(st.rest)[1..], st.unique)
  }

  ghost function AfterReplace(st: Store, entry: Entry): (r: Store)
    requires Keyed(st.entries)
    ensures Keyed(r.entries)
  {
    var e, st1 := Named(entry, st.unique), Counted(st, entry);
    match Scan(st.entries, e.key.value)
    case None => Appended(st1, e)
    case Some(i) => st1.(entries := st.entries[i := e])
  }

  ghost function AfterInsert(st: Store, entry: Entry): (r: Store)
    requires Keyed(st.entries)
    ensures Keyed(r.entries)
  {
    var e, st1 := Named(entry, st.unique), Counted(st, entry);
    match Scan(st.entries, e.key.value)
    case None => Appended(st1, e)
    case Some(i) => st1.(entries := st.entries[i := WithValue(st.entries[i], e.value)])
  }

  /** An entry with one value more. */
  function WithValue(had: Entry, more: Option<Bytes>): Entry { had.(value := Merged(had.value, more)) }

  ghost function AfterExtract(st: Store, key: Bytes): (r: Store)
    requires Keyed(st.entries)
    ensures Keyed(r.entries)
  {
    match Scan(st.entries, key)
    case None => st
    case Some(i) => st.(entries := Swapped(st.entries, i), rest := [None] + st.rest)
  }

  function Emptied(e: Entry): Entry { e.(key := None, value := None) }

  ghost function AllEmptied(es: seq<Entry>): (r: seq<Option<Entry>>)
    ensures |r| == |es| && forall i :: 0 <= i < |es| ==> r[i] == Some(Emptied(es[i]))
  {
    seq(|es|, i requires 0 <= i < |es| => Some(Emptied(es[i])))
  }

  ghost function AfterReset(st: Store): Store { Store([], AllEmptied(st.entries) + st.rest, 0) }

  /** The entry array_set_key_value makes for a key that is not there. */
  ghost function MadeFor(rest: seq<Option<Entry>>, key: Bytes, value: Bytes): Entry {
    var u := FirstUnused(rest);
    (if u.Some? then u.value else Entry(None, None, false)).(key := Some(key), value := Some(value))
  }

  ghost function AfterSet(st: Store, key: Bytes, value: Bytes): (r: Store)
    requires Keyed(st.entries)
    ensures Keyed(r.entries)
  {
    match Scan(st.entries, key)
    case Some(i) => st.(entries := st.entries[i := st.entries[i].(value := Some(value))])
    case None => AfterInsert(st.(rest := WithoutUnused(st.rest)), MadeFor(st.rest, key, value))
  }

  class KeyedArray {
    var data: seq<Option<Entry>>
    var sorted: seq<nat>
    var used: nat
    var uniqueNdx: nat

    ghost predicate Shaped()
      reads this`data, this`sorted, this`used
    {
      && |sorted| == |data| && used <= |data|
      && (forall i :: 0 <= i < used ==> data[i].Some? && data[i].value.key.Some?)
    }

    /** The entries in the order of their insertion. */
    ghost function Entries(): (es: seq<Entry>)
      requires Shaped()
      reads this`data, this`sorted, this`used
      ensures |es| == used && Keyed(es) && forall i :: 0 <= i < used ==> es[i] == data[i].value
    {
      Present(data[..used])
    }

    ghost function Contents(): (st: Store)
      requires Shaped()
      reads this
      ensures Keyed(st.entries)
    {
      Store(Entries(), data[used..], uniqueNdx)
    }

    ghost predicate Valid()
      reads this`data, this`sorted, this`used
    {
      Shaped() && Indexes(sorted[..used], Keys(Entries()))
    }

    constructor ()
      ensures Valid() && Contents() == Store([], [], 0)
    {
      data, sorted, used, uniqueNdx := [], [], 0, 0;
    }

    /** array_get_index: the entry's position, or where its key belongs in the index. */
    method GetIndex(key: Bytes) returns (ndx: Option<nat>, pos: nat)
      requires Valid()
      ensures ndx == Scan(Entries(), key)
      ensures ndx.Some? ==> pos < used && sorted[pos] == ndx.value
      ensures ndx.None? ==> Gap(sorted[..used], Keys(Entries()), Folded(key), pos)
    {
      hide Less, Scan;
      ghost var es, s, fk := Entries(), sorted[..used], Folded(key);
      ghost var ks := Keys(es);
      IndexDistinct(s, ks);
      var lower, upper := 0, used;
      while lower != upper
        invariant 0 <= lower <= upper <= used
        invariant forall i :: 0 <= i < lower ==> Less(ks[s[i]], fk)
        invariant forall i :: upper <= i < used ==> Less(fk, ks[s[i]])
        decreases upper - lower
      {
        var probe := (lower + upper) / 2;
        assert s[probe] == sorted[probe] < used;
        var k := data[sorted[probe]].value.key.value;
        assert Folded(k) == ks[s[probe]];
        var cmp := CaselessCompare(key, k);
        if cmp == 0 {
          ScanIs(es, key, sorted[probe]);
          return Some(sorted[probe]), probe;
        } else if cmp < 0 {
          forall i | probe <= i < used ensures Less(fk, ks[s[i]]) {
            if i > probe { LessTransitive(fk, ks[s[probe]], ks[s[i]]); }
          }
          upper := probe;
        } else {
          forall i | 0 <= i < probe + 1 ensures Less(ks[s[i]], fk) {
            if i < probe { LessTransitive(ks[s[i]], ks[s[probe]], fk); }
          }
          lower := probe + 1;
        }
      }
      GapAbsent(s, ks, fk, lower);
      NotScanned(es, key);
      return None, lower;
    }

    /** array_get_element */
    method GetElement(key: Bytes) returns (e: Option<Entry>)
      requires Valid()
      ensures e == Get(Entries(), key)
    {
      hide Scan, Indexes;
      var ndx, pos := GetIndex(key);
      if ndx.Some? {
        return data[ndx.value];
      }
      return None;
    }

    /** array_reset: the entries stay for reuse, without key and value. */
    method Reset()
      requires Valid()
      modifies this
      ensures Valid() && Contents() == AfterReset(old(Contents()))
    {
      var i := 0;
      while i < used
        invariant i <= used == old(used) && |data| == |old(data)| && sorted == old(sorted)
        invariant forall j :: 0 <= j < |data| ==>
                    data[j] == (if j < i then Some(Emptied(old(data)[j].value)) else old(data)[j])
      {
        data := data[i := Some(Emptied(data[i].value))];
        i := i + 1;
      }
      used, uniqueNdx := 0, 0;
      assert data[0..] == AllEmptied(old(Entries())) + old(data[used..]);
    }

    /** Room for one more entry. */
    method Grow()
      requires Valid()
      modifies this`data, this`sorted
      ensures Valid() && used < |data| && Entries() == old(Entries())
      ensures sorted[..used] == old(sorted[..used])
      ensures data[used..] == Room(old(data[used..])) && uniqueNdx == old(uniqueNdx)
    {
      assert |data| == used ==> data[used..] == [];
      if |data| == used {
        data := data + seq(16, i => None);
        sorted := sorted + seq(16, i => 0);
        assert sorted[..used] == old(sorted)[..used];
        assert Entries() == old(Entries());
        assert data[used..] == seq(16, i => None);
      }
    }

    /** The entry gets a place at the end, and its position a place in the index. */
    method InsertAt(entry: Entry, pos: nat)
      requires Valid() && used < |data| && entry.key.Some?
      requires Gap(sorted[..used], Keys(Entries()), Folded(entry.key.value), pos)
      modifies this`data, this`sorted, this`used
      ensures Valid() && Entries() == old(Entries()) + [entry] && used == old(used) + 1
      ensures data[used..] == old(data[used..])[1..]
    {
      hide Less, Gap, Indexes, Folded;
      ghost var es, s, n := Entries(), sorted[..used], used;
      ghost var ks := Keys(es);
      GapBound(s, ks, Folded(entry.key.value), pos);
      InsertedIndexes(s, ks, Folded(entry.key.value), pos);
      var ndx := used;
      data := data[ndx := Some(entry)];
      used := used + 1;
      sorted := sorted[..pos + 1] + sorted[pos..ndx] + sorted[ndx + 1..];
      sorted := sorted[pos := ndx];
      assert sorted[..used] == Inserted(s, pos);
      assert Entries() == es + [entry];
      assert data[used..] == old(data[used..])[1..];
      assert Keys(Entries()) == ks + [Folded(entry.key.value)];
    }

    /** array_find_or_insert: the position of an entry with the same key, or the entry is inserted. */
    method FindOrInsert(entry: Entry) returns (e: Entry, found: Option<nat>)
      requires Valid()
      modifies this
      ensures Valid() && e == Named(entry, old(uniqueNdx)) && e.key.Some?
      ensures found == Scan(old(Entries()), e.key.value)
      ensures var st := Counted(old(Contents()), entry); Contents() == if found.Some? then st else Appended(st, e)
    {
      hide Less, Scan, Indexes, Gap;
      e := entry;
      if entry.key.None? || entry.indexKey {
        e := entry.(key := Some(Decimal(uniqueNdx)), indexKey := true);
        uniqueNdx := uniqueNdx + 1;
      }
      var pos;
      found, pos := GetIndex(e.key.value);
      if found.Some? {
        return;
      }
      ghost var es := Entries();
      Grow();
      InsertAt(e, pos);
    }

    /** array_replace */
    method Replace(entry: Entry)
      requires Valid()
      modifies this
      ensures Valid() && Contents() == AfterReplace(old(Contents()), entry)
    {
      hide Less, Scan, Indexes;
      var e, found := FindOrInsert(entry);
      if found.Some? {
        SetEntry(found.value, e);
      }
    }

    /** array_insert_unique: a second value for a known key is added to the first. */
    method InsertUnique(entry: Entry)
      requires Valid()
      modifies this
      ensures Valid() && Contents() == AfterInsert(old(Contents()), entry)
    {
      hide Less, Scan, Indexes;
      var e, found := FindOrInsert(entry);
      if found.Some? {
        var had := data[found.value].value;
        SetEntry(found.value, WithValue(had, e.value));
      }
    }

    /** An entry changes but not its key. */
    method SetEntry(ndx: nat, e: Entry)
      requires Valid() && ndx < used && e.key.Some? && Folded(e.key.value) == Folded(Entries()[ndx].key.value)
      modifies this`data
      ensures Valid() && Contents() == old(Contents()).(entries := old(Entries())[ndx := e])
    {
      hide Indexes, Folded, Keys;
      ghost var es := Entries();
      SameKeys(es, ndx, e);
      data := data[ndx := Some(e)];
      assert Entries() == es[ndx := e];
      assert data[used..] == old(data[used..]);
    }

    /** array_extract_element: the last entry moves to the free place, and its index entry follows. */
    method Extract(key: Bytes) returns (e: Option<Entry>)
      requires Valid()
      modifies this
      ensures Valid() && e == Get(old(Entries()), key)
      ensures Contents() == AfterExtract(old(Contents()), key)
    {
      hide Less, Scan, Indexes;
      var ndx, pos := GetIndex(key);
      if ndx.None? {
        return None;
      }
      var last := used - 1;
      e := data[ndx.value];
      var lastPos := pos;
      if ndx.value != last {
        ghost var es := Entries();
        assert es[last] == data[last].value;
        IndexDistinct(sorted[..used], Keys(es));
        ScanIs(es, data[last].value.key.value, last);
        var l;
        l, lastPos := GetIndex(data[last].value.key.value);
        assert l == Some(last);
      }
      RemoveAt(ndx.value, pos, lastPos);
    }

    method RemoveAt(ndx: nat, pos: nat, lastPos: nat)
      requires Valid() && pos < used && sorted[pos] == ndx < used && lastPos < used && sorted[lastPos] == used - 1
      modifies this`data, this`sorted, this`used
      ensures Valid() && Entries() == Swapped(old(Entries()), ndx) && data[used..] == [None] + old(data[used..])
    {
      hide Less, Indexes, Folded, Present, Keys, Removed, Swapped, DataWithout, SortedWithout;
      ghost var es, s := Entries(), sorted[..used];
      RemovedIndexes(s, Keys(es), pos, lastPos);
      SwappedData(data, used, ndx);
      ShiftedLeft(sorted, used, pos, lastPos, Keys(es));
      SwappedKeys(es, ndx);
      data, sorted, used := DataWithout(data, used, ndx), SortedWithout(sorted, used, pos, lastPos), used - 1;
    }

    /** array_get_unused_element: an entry kept for reuse, if there is one. */
    method GetUnused() returns (e: Option<Entry>)
      requires Valid()
      modifies this`data
      ensures Valid() && e == FirstUnused(old(data[used..]))
      ensures Contents() == old(Contents()).(rest := WithoutUnused(old(data[used..])))
    {
      hide Indexes;
      var i := used;
      while i < |data|
        invariant used <= i <= |data| && data == old(data)
        invariant forall j :: used <= j < i ==> data[j].None?
      {
        if data[i].Some? {
          UnusedAtIs(data[used..], i - used);
          e := data[i];
          data := data[i := data[used]];
          data := data[used := None];
          assert Entries() == old(Entries());
          assert data[used..] == WithoutUnused(old(data[used..]));
          return;
        }
        i := i + 1;
      }
      UnusedAtIs(data[used..], i - used);
      return None;
    }

    /** array_set_key_value; SetFound says when the value is found under the key afterwards. */
    method SetKeyValue(key: Bytes, value: Bytes)
      requires Valid()
      modifies this
      ensures Valid() && Contents() == AfterSet(old(Contents()), key, value)
    {
      hide Less, Scan, Indexes;
      var ndx, pos := GetIndex(key);
      if ndx.Some? {
        var e := data[ndx.value].value;
        assert e == Entries()[ndx.value];
        SetEntry(ndx.value, e.(value := Some(value)));
        return;
      }
      var unused := GetUnused();
      var e := if unused.Some? then unused.value else Entry(None, None, false);
      InsertUnique(e.(key := Some(key), value := Some(value)));
    }
  }

  lemma SameKeys(es: seq<Entry>, ndx: nat, e: Entry)
    requires Keyed(es) && ndx < |es| && e.key.Some? && Folded(e.key.value) == Folded(es[ndx].key.value)
    ensures Keyed(es[ndx := e]) && Keys(es[ndx := e]) == Keys(es)
  {
    hide Folded;
  }

  /** The last entry moves to the place of the one that goes away. */
  function DataWithout(data: seq<Option<Entry>>, used: nat, ndx: nat): seq<Option<Entry>>
    requires ndx < used <= |data|
  {
    if ndx != used - 1 then data[ndx := data[used - 1]][used - 1 := None] else data[ndx := None]
  }

  /** The index entry of the last entry is redirected, and the one that goes away is closed over. */
  function SortedWithout(sorted: seq<nat>, used: nat, pos: nat, lastPos: nat): seq<nat>
    requires pos < used <= |sorted| && lastPos < used
  {
    var last := used - 1;
    var s := if sorted[pos] != last then sorted[lastPos := sorted[pos]] else sorted;
    var t := if pos != last then s[..pos] + s[pos + 1..last + 1] + s[last..] else s;
    t[last := NOT_FOUND]
  }

  lemma SwappedData(data: seq<Option<Entry>>, used: nat, ndx: nat)
    requires ndx < used <= |data| && forall i :: 0 <= i < used ==> data[i].Some? && data[i].value.key.Some?
    ensures var d := DataWithout(data, used, ndx);
            && |d| == |data| && (forall i :: 0 <= i < used - 1 ==> d[i].Some? && d[i].value.key.Some?)
            && Present(d[..used - 1]) == Swapped(Present(data[..used]), ndx)
            && d[used - 1..] == [None] + data[used..]
  {
  }

  lemma ShiftedLeft(sorted: seq<nat>, used: nat, pos: nat, lastPos: nat, keys: seq<Bytes>)
    requires pos < used <= |sorted| && lastPos < used && Indexes(sorted[..used], keys) && sorted[lastPos] == used - 1
    ensures |SortedWithout(sorted, used, pos, lastPos)| == |sorted|
    ensures SortedWithout(sorted, used, pos, lastPos)[..used - 1] == Removed(sorted[..used], pos, lastPos)
  {
    var last, s := used - 1, sorted[..used];
    if sorted[pos] == last {
      OnePlace(s, keys, pos, lastPos);
    }
    var t := s[lastPos := s[pos]];
    var u := SortedWithout(sorted, used, pos, lastPos);
    assert forall i :: 0 <= i < pos ==> u[i] == t[i];
    assert forall i :: pos <= i < last ==> u[i] == t[i + 1];
  }

  lemma SwappedKeys(es: seq<Entry>, ndx: nat)
    requires Keyed(es) && ndx < |es|
    ensures Keyed(Swapped(es, ndx)) && Keys(Swapped(es, ndx)) == Swapped(Keys(es), ndx)
  {
    hide Folded;
  }

  lemma OnePlace(sorted: seq<nat>, keys: seq<Bytes>, p: nat, q: nat)
    requires Indexes(sorted, keys) && p < |sorted| && q < |sorted| && sorted[p] == sorted[q]
    ensures p == q
  {
    IndexInjective(sorted, keys);
  }

  lemma NotScanned(es: seq<Entry>, key: Bytes)
    requires Keyed(es) && Folded(key) !in Keys(es)
    ensures Scan(es, key) == None
  {
    hide Scan;
    assert forall i :: 0 <= i < |es| ==> Keys(es)[i] == Folded(es[i].key.value);
  }

  lemma GapBound(sorted: seq<nat>, keys: seq<Bytes>, key: Bytes, pos: nat)
    requires Indexes(sorted, keys) && Gap(sorted, keys, key, pos)
    ensures pos <= |sorted| == |keys|
  {
  }

  // ------------------------------------------------------------- whole runs

  datatype Op =
    | Insert(entry: Entry)
    | Replace(entry: Entry)
    | Extract(key: Bytes)
    | Set(key: Bytes, value: Bytes)
    | Clear

  ghost function Step(st: Store, op: Op): (r: Store)
    requires Keyed(st.entries)
    ensures Keyed(r.entries)
  {
    match op
    case Insert(entry) => AfterInsert(st, entry)
    case Replace(entry) => AfterReplace(st, entry)
    case Extract(key) => AfterExtract(st, key)
    case Set(key, value) => AfterSet(st, key, value)
    case Clear => AfterReset(st)
  }

  ghost function After(st: Store, ops: seq<Op>): (r: Store)
    requires Keyed(st.entries)
    ensures Keyed(r.entries)
  {
    if ops == [] then st else Step(After(st, ops[..|ops| - 1]), ops[|ops| - 1])
  }

  ghost predicate SameKey(a: Bytes, b: Bytes) { Folded(a) == Folded(b) }

  /** A new key keeps the keys apart. */
  lemma AppendedConsistent(st: Store, e: Entry)
    requires Consistent(st) && e.key.Some? && Scan(st.entries, e.key.value).None?
    ensures Consistent(Appended(st, e))
  {
    hide Scan, Folded;
    var es := st.entries + [e];
    assert es[|st.entries|] == e && forall i :: 0 <= i < |st.entries| ==> es[i] == st.entries[i];
    assert forall i :: 0 <= i < |st.entries| ==> Keys(es)[i] == Keys(st.entries)[i] != Keys(es)[|st.entries|];
  }

  /** What a lookup finds after an insertion: the new entry, or the old one with one value more. */
  lemma InsertLookup(st: Store, entry: Entry, k: Bytes)
    requires Consistent(st)
    ensures Consistent(AfterInsert(st, entry))
    ensures var e, had := Named(entry, st.unique), Get(st.entries, k);
            Get(AfterInsert(st, entry).entries, k) ==
              if !SameKey(e.key.value, k) then had
              else if had.None? then Some(e) else Some(WithValue(had.value, e.value))
  {
    hide Folded;
    var e, es := Named(entry, st.unique), st.entries;
    match Scan(es, e.key.value)
    case None =>
      AppendedConsistent(Counted(st, entry), e);
      GetInserted(es, e, k);
      if SameKey(e.key.value, k) { SameScan(es, e.key.value, k); }
    case Some(i) =>
      GetReplaced(es, i, WithValue(es[i], e.value), k);
      if SameKey(e.key.value, k) { ScanIs(es, k, i); }
  }

  /** A lookup does not depend on the case of the key. */
  lemma {:induction false} SameScan(es: seq<Entry>, a: Bytes, b: Bytes)
    requires Keyed(es) && SameKey(a, b)
    ensures Scan(es, a) == Scan(es, b) && Get(es, a) == Get(es, b)
  {
    if es != [] {
      SameScan(es[..|es| - 1], a, b);
    }
  }

  lemma ReplaceLookup(st: Store, entry: Entry, k: Bytes)
    requires Consistent(st)
    ensures Consistent(AfterReplace(st, entry))
    ensures var e := Named(entry, st.unique);
            Get(AfterReplace(st, entry).entries, k) == if SameKey(e.key.value, k) then Some(e) else Get(st.entries, k)
  {
    hide Folded;
    var e, es := Named(entry, st.unique), st.entries;
    match Scan(es, e.key.value)
    case None =>
      AppendedConsistent(Counted(st, entry), e);
      GetInserted(es, e, k);
    case Some(i) =>
      GetReplaced(es, i, e, k);
  }

  lemma ExtractLookup(st: Store, key: Bytes, k: Bytes)
    requires Consistent(st)
    ensures Consistent(AfterExtract(st, key))
    ensures Get(AfterExtract(st, key).entries, k) == if SameKey(key, k) then None else Get(st.entries, k)
  {
    hide Folded;
    match Scan(st.entries, key)
    case None =>
      if SameKey(key, k) { SameScan(st.entries, key, k); }
    case Some(i) => GetExtracted(st.entries, i, k);
  }

  /** The entry made for a new key would be named by a running number again. */
  ghost predicate Renumbers(rest: seq<Option<Entry>>) {
    FirstUnused(rest).Some? && FirstUnused(rest).value.indexKey
  }

  /** The key under which a value is stored that is set for `key`. */
  ghost function StoredUnder(st: Store, key: Bytes): Bytes
    requires Keyed(st.entries)
  {
    if Scan(st.entries, key).None? && Renumbers(st.rest) then Decimal(st.unique) else key
  }

  /** What a lookup finds after setting a value. */
  lemma SetLookup(st: Store, key: Bytes, value: Bytes, k: Bytes)
    requires Consistent(st)
    ensures Consistent(AfterSet(st, key, value))
    ensures var under, had, r := StoredUnder(st, key), Get(st.entries, k), Get(AfterSet(st, key, value).entries, k);
            if !SameKey(under, k) then r == had
            else r.Some? && r.value.value == (if had.None? || Scan(st.entries, key).Some? then Some(value)
                                              else Merged(had.value.value, Some(value)))
  {
    hide Folded, FirstUnused, WithoutUnused;
    match Scan(st.entries, key)
    case Some(i) =>
      GetReplaced(st.entries, i, st.entries[i].(value := Some(value)), k);
    case None =>
      InsertLookup(st.(rest := WithoutUnused(st.rest)), MadeFor(st.rest, key, value), k);
  }

  /**
    A value that was set is found under its key, exactly unless the key was new, the
    entry reused for it had been named by a running number, and the next number is
    not the key.
   */
  lemma SetFound(st: Store, key: Bytes, value: Bytes)
    requires Consistent(st)
    ensures var r := Get(AfterSet(st, key, value).entries, key);
            (r.Some? && r.value.value == Some(value)) <==>
              (Scan(st.entries, key).Some? || !Renumbers(st.rest) || SameKey(Decimal(st.unique), key))
    ensures Scan(st.entries, key).None? && Renumbers(st.rest) && !SameKey(Decimal(st.unique), key) ==>
              Get(AfterSet(st, key, value).entries, key).None?
  {
    hide Folded, AfterSet;
    SetLookup(st, key, value, key);
  }

  lemma {:induction false} AfterConsistent(st: Store, ops: seq<Op>)
    requires Consistent(st)
    ensures Consistent(After(st, ops))
  {
    if ops != [] {
      var init, op := ops[..|ops| - 1], ops[|ops| - 1];
      AfterConsistent(st, init);
      StepConsistent(After(st, init), op);
    }
  }

  lemma StepConsistent(st: Store, op: Op)
    requires Consistent(st)
    ensures Consistent(Step(st, op))
  {
    hide Folded, AfterInsert, AfterReplace, AfterExtract, AfterSet;
    match op
    case Insert(entry) => InsertLookup(st, entry, []);
    case Replace(entry) => ReplaceLookup(st, entry, []);
    case Extract(key) => ExtractLookup(st, key, []);
    case Set(key, value) => SetLookup(st, key, value, []);
    case Clear =>
  }

  method Perform(a: KeyedArray, op: Op)
    requires a.Valid()
    modifies a
    ensures a.Valid() && a.Contents() == Step(old(a.Contents()), op)
  {
    hide Indexes, Scan;
    match op
    case Insert(entry) => a.InsertUnique(entry);
    case Replace(entry) => a.Replace(entry);
    case Extract(key) => var e := a.Extract(key);
    case Set(key, value) => a.SetKeyValue(key, value);
    case Clear => a.Reset();
  }

  /**
    After every sequence of operations the array is the list those operations make,
    its index is a permutation of the positions in strictly increasing order of the
    folded keys, and a lookup finds what a linear scan of the list finds.
   */
  method Run(ops: seq<Op>, key: Bytes) returns (a: KeyedArray, e: Option<Entry>)
    ensures a.Valid() && a.Contents() == After(Store([], [], 0), ops)
    ensures e == Get(After(Store([], [], 0), ops).entries, key)
    ensures forall p :: 0 <= p < a.used ==> p in a.sorted[..a.used]
    ensures forall i, j :: 0 <= i < j < a.used ==>
              a.sorted[i] < a.used && a.sorted[j] < a.used &&
              Less(Folded(a.Entries()[a.sorted[i]].key.value), Folded(a.Entries()[a.sorted[j]].key.value))
  {
    hide Scan, Less, Step;
    a := new KeyedArray();
    ghost var start := a.Contents();
    assert ops[..0] == [];
    var i := 0;
    while i < |ops|
      invariant i <= |ops| && a.Valid() && fresh(a) && a.Contents() == After(start, ops[..i])
    {
      assert ops[..i + 1][..i] == ops[..i];
      Perform(a, ops[i]);
      i := i + 1;
    }
    assert ops[..i] == ops;
    IndexComplete(a.sorted[..a.used], Keys(a.Entries()));
    e := a.GetElement(key);
  }

  /** A run that loses a key: an unnamed entry, a reset, and the value set for "A" is not found under "A". */
  method LostKey(value: Bytes) returns (a: KeyedArray, e: Option<Entry>)
    ensures a.Valid() && e == None && a.Contents() == After(Store([], [], 0), LostKeyRun(value))
  {
    var ops := LostKeyRun(value);
    LostKeyIs(value);
    a, e := Run(ops, [65]);
  }

  function LostKeyRun(value: Bytes): seq<Op> {
    [Insert(Entry(None, None, false)), Clear, Set([65], value)]
  }

  lemma LostKeyIs(value: Bytes)
    ensures Get(After(Store([], [], 0), LostKeyRun(value)).entries, [65]) == None
  {
    hide Step, AfterSet;
    var unnamed := Entry(None, None, false);
    AfterThree(Store([], [], 0), Insert(unnamed), Clear, Set([65], value));
    UnnamedEntry();
    var one := Step(Store([], [], 0), Insert(unnamed));
    ClearedEntry(one);
    var two := Step(one, Clear);
    LostStep(two, value);
    assert Step(two, Set([65], value)) == AfterSet(two, [65], value) by { SetStep(two, [65], value); }
  }

  lemma AfterThree(st: Store, a: Op, b: Op, c: Op)
    requires Keyed(st.entries)
    ensures After(st, [a, b, c]) == Step(Step(Step(st, a), b), c)
  {
    hide Step, After;
    AfterNext(st, [], a);
    AfterNext(st, [a], b);
    AfterNext(st, [a, b], c);
    assert [] + [a] == [a] && [a] + [b] == [a, b] && [a, b] + [c] == [a, b, c];
  }

  lemma AfterNext(st: Store, ops: seq<Op>, op: Op)
    requires Keyed(st.entries)
    ensures After(st, ops + [op]) == Step(After(st, ops), op) && After(st, []) == st
  {
    hide Step;
    assert (ops + [op])[..|ops|] == ops;
  }

  /** The first unnamed entry is named "0". */
  lemma UnnamedEntry()
    ensures Step(Store([], [], 0), Insert(Entry(None, None, false))).entries == [Entry(Some(Decimal(0)), None, true)]
  {
  }

  /** A reset leaves the mark of a name by number. */
  lemma ClearedEntry(st: Store)
    requires |st.entries| == 1 && Keyed(st.entries) && st.entries[0].indexKey
    ensures var r := Step(st, Clear); r.entries == [] && r.unique == 0 && r.rest != [] && r.rest[0] == Some(Entry(None, None, true))
  {
  }

  lemma SetStep(st: Store, key: Bytes, value: Bytes)
    requires Keyed(st.entries)
    ensures Step(st, Set(key, value)) == AfterSet(st, key, value)
  {
  }

  lemma LostStep(st: Store, value: Bytes)
    requires st.entries == [] && st.unique == 0 && st.rest != [] && st.rest[0] == Some(Entry(None, None, true))
    ensures Get(AfterSet(st, [65], value).entries, [65]) == None
  {
    hide AfterSet;
    UnusedAtIs(st.rest, 0);
    assert Folded([65])[0] == 97 && Folded(Decimal(0))[0] == 48;
    SetFound(st, [65], value);
  }
}
