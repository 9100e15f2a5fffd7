/** The shape of a radix tree as a value, and what such a shape means as a finite map.
    The heap tree of module RadixTrees carries one of these as its abstract value. */
module Tries {
  import opened Prelude

  /** A node: its edge label, its value if it is terminal, its children by first byte. */
  datatype Trie<V> = Trie(key: string, val: Option<V>, kids: map<char, Trie<V>>)

  function EmptyTrie<V>(): Trie<V> { Trie("", None, map[]) }

  function Leaf<V>(key: string, v: V): Trie<V> { Trie(key, Some(v), map[]) }

  // ---------------------------------------------------------------- prefix algebra

  /** The longest common prefix of two keys. */
  function Lcp(a: string, b: string): (p: string)
    ensures p <= a && p <= b
    ensures |p| == |a| || |p| == |b| || a[|p|] != b[|p|]
  {
    if a == "" || b == "" || a[0] != b[0] then "" else [a[0]] + Lcp(a[1..], b[1..])
  }

  /** Following an edge labelled `p + r` is following `p` and then `r`. */
  lemma PrefixTwice(edge: string, q: string, n: nat)
    requires n <= |edge|
    ensures edge <= q <==> edge[..n] <= q && edge[n..] <= q[n..]
    ensures edge <= q ==> q[n..][|edge| - n..] == q[|edge|..]
  {
    if edge[..n] <= q && edge[n..] <= q[n..] {
      assert edge == edge[..n] + edge[n..];
      assert q == q[..n] + q[n..];
    }
  }

  lemma PrefixThrough(p: string, edge: string, q: string)
    requires p <= edge
    ensures edge <= q ==> p <= q
  {
  }

  // ---------------------------------------------------------------- canonical shapes

  /** The label rule and the branching rule for a node below the root. */
  predicate EdgeOk<V>(c: char, t: Trie<V>) {
    t.key != "" && t.key[0] == c && (t.val.Some? || |t.kids| >= 2)
  }

  /** Labels are non-empty and filed under their first byte, and a node below the root is
      terminal or has at least two children. */
  ghost predicate Canonical<V>(t: Trie<V>) {
    forall c | c in t.kids :: EdgeOk(c, t.kids[c]) && Canonical(t.kids[c])
  }

  // ---------------------------------------------------------------- meaning

  /** What following the edges from `t` finds for the rest `k` of a key. */
  function Lookup<V>(t: Trie<V>, k: string): Option<V> {
    if k == "" then t.val
    else if k[0] !in t.kids then None
    else
      var child := t.kids[k[0]];
      if child.key <= k then Lookup(child, k[|child.key|..]) else None
  }

  /** The same for a key that still has the edge to `child` before it. */
  function LookupOnEdge<V>(child: Trie<V>, k: string): Option<V> {
    if child.key <= k then Lookup(child, k[|child.key|..]) else None
  }

  /** The keys spelled by the labels on the paths from `t` to a terminal node. */
  ghost function Keys<V>(t: Trie<V>): set<string> {
    (if t.val.Some? then {""} else {}) +
    set c, s | c in t.kids && s in Keys(t.kids[c]) :: t.kids[c].key + s
  }

  /** The finite map the shape stands for. */
  ghost function Contents<V>(t: Trie<V>): map<string, V> {
    map k | k in Keys(t) && Lookup(t, k).Some? :: Lookup(t, k).value
  }

  /** A key spelled below `t` is spelled through the child of its first byte. */
  lemma KeysThroughChild<V>(t: Trie<V>, k: string)
    requires Canonical(t)
    ensures k in Keys(t) <==>
            if k == "" then t.val.Some?
            else k[0] in t.kids && t.kids[k[0]].key <= k && k[|t.kids[k[0]].key|..] in Keys(t.kids[k[0]])
  {
    forall c, s | c in t.kids && s in Keys(t.kids[c]) && k == t.kids[c].key + s
      ensures k != "" && k[0] == c && t.kids[c].key <= k && k[|t.kids[c].key|..] == s
    {
      assert EdgeOk(c, t.kids[c]);
    }
    if k != "" && k[0] in t.kids && t.kids[k[0]].key <= k {
      assert k == t.kids[k[0]].key + k[|t.kids[k[0]].key|..];
    }
  }

  /** Search finds exactly the spelled keys. */
  lemma {:induction false} KeysAreFound<V>(t: Trie<V>, k: string)
    requires Canonical(t)
    ensures k in Keys(t) <==> Lookup(t, k).Some?
  {
    hide Keys;
    KeysThroughChild(t, k);
    if k != "" && k[0] in t.kids && t.kids[k[0]].key <= k {
      KeysAreFound(t.kids[k[0]], k[|t.kids[k[0]].key|..]);
    }
  }

  lemma ContentsAt<V>(t: Trie<V>, k: string)
    requires Canonical(t)
    ensures Lookup(t, k) == if k in Contents(t) then Some(Contents(t)[k]) else None
  {
    KeysAreFound(t, k);
  }

  lemma ContentsIsLookup<V>(t: Trie<V>)
    requires Canonical(t)
    ensures Contents(t).Keys == Keys(t)
    ensures forall k :: Lookup(t, k) == if k in Contents(t) then Some(Contents(t)[k]) else None
  {
    forall k ensures k in Keys(t) <==> Lookup(t, k).Some? {
      KeysAreFound(t, k);
    }
  }

  // ---------------------------------------------------------------- insertion

  /** The old child once its first `n` label bytes have moved to a new parent. */
  function Tail<V>(child: Trie<V>, n: nat): Trie<V>
    requires n <= |child.key|
  {
    child.(key := child.key[n..])
  }

  /** A key that ends inside the edge of `child`. */
  function SplitAtKey<V>(child: Trie<V>, key: string, v: V): Trie<V>
    requires key < child.key
  {
    Trie(key, Some(v), map[child.key[|key|] := Tail(child, |key|)])
  }

  /** A key that leaves the edge of `child` after the common prefix of length `n`. */
  function Fork<V>(child: Trie<V>, key: string, n: nat, v: V): Trie<V>
    requires n < |child.key| && n < |key|
  {
    Trie(key[..n], None, map[child.key[n] := Tail(child, n), key[n] := Leaf(key[n..], v)])
  }

  function InsertAt<V>(t: Trie<V>, key: string, v: V): (r: Trie<V>)
    ensures r.key == t.key
    decreases t, 0
  {
    if key == "" then t.(val := Some(v))
    else if key[0] !in t.kids then t.(kids := t.kids[key[0] := Leaf(key, v)])
    else t.(kids := t.kids[key[0] := InsertOnEdge(t.kids[key[0]], key, v)])
  }

  /** The new child for a key that starts with the first byte of the child's label. */
  function InsertOnEdge<V>(child: Trie<V>, key: string, v: V): Trie<V>
    decreases child, 1
  {
    var p := Lcp(child.key, key);
    if p == child.key then InsertAt(child, key[|p|..], v)
    else if p == key then SplitAtKey(child, key, v)
    else Fork(child, key, |p|, v)
  }

  lemma LookupIgnoresLabel<V>(t: Trie<V>, edge: string, q: string)
    ensures Lookup(t.(key := edge), q) == Lookup(t, q)
  {
  }

  /** What a lookup makes of the tail of a split edge. */
  lemma LookupTail<V>(t: Trie<V>, child: Trie<V>, n: nat, q: string)
    requires 0 < n < |child.key| && n < |q| && child.key[..n] <= q
    requires child.key[n] in t.kids && t.kids[child.key[n]] == Tail(child, n)
    requires q[n] == child.key[n]
    ensures Lookup(t, q[n..]) == if child.key <= q then Lookup(child, q[|child.key|..]) else None
  {
    PrefixTwice(child.key, q, n);
    if child.key <= q {
      LookupIgnoresLabel(child, child.key[n..], q[|child.key|..]);
    }
  }

  lemma SplitAtKeyLookup<V>(child: Trie<V>, key: string, v: V, q: string)
    requires "" < key < child.key && key <= q
    ensures Lookup(SplitAtKey(child, key, v), q[|key|..]) ==
            if q == key then Some(v)
            else if child.key <= q then Lookup(child, q[|child.key|..]) else None
  {
    var n := |key|;
    if q != key && q[n] == child.key[n] {
      LookupTail(SplitAtKey(child, key, v), child, n, q);
    }
  }

  lemma ForkLookup<V>(child: Trie<V>, key: string, n: nat, v: V, q: string)
    requires 0 < n < |child.key| && n < |key|
    requires child.key[..n] == key[..n] <= q && child.key[n] != key[n]
    ensures Lookup(Fork(child, key, n, v), q[n..]) ==
            if q == key then Some(v)
            else if child.key <= q then Lookup(child, q[|child.key|..]) else None
  {
    var t := Fork(child, key, n, v);
    if |q| > n && q[n] == child.key[n] {
      LookupTail(t, child, n, q);
    } else if |q| > n && q[n] == key[n] {
      PrefixTwice(key, q, n);
      if key <= q {
        LookupIgnoresLabel(Leaf(key, v), key[n..], q[|key|..]);
        assert q[n..][|key| - n..] == q[|key|..];
      }
    }
  }

  /** Insertion changes the answer for its own key and for no other. */
  lemma {:induction false} LookupInsert<V>(t: Trie<V>, key: string, v: V, q: string)
    requires Canonical(t)
    ensures Lookup(InsertAt(t, key, v), q) == if q == key then Some(v) else Lookup(t, q)
    decreases t, 0
  {
    if key != "" && q != "" && q[0] == key[0] && key[0] in t.kids {
      var child := t.kids[key[0]];
      assert EdgeOk(key[0], child);
      LookupInsertOnEdge(child, key, v, q);
      assert Lookup(t, q) == LookupOnEdge(child, q);
    }
  }

  lemma {:induction false} LookupInsertOnEdge<V>(child: Trie<V>, key: string, v: V, q: string)
    requires Canonical(child) && key != "" && child.key != "" && child.key[0] == key[0]
    ensures LookupOnEdge(InsertOnEdge(child, key, v), q) ==
            if q == key then Some(v) else LookupOnEdge(child, q)
    decreases child, 1
  {
    var p := Lcp(child.key, key);
    var n := |p|;
    if p == child.key {
      if p <= q {
        LookupInsert(child, key[n..], v, q[n..]);
        assert q[n..] == key[n..] ==> p + q[n..] == p + key[n..];
      }
    } else if p == key {
      if key <= q {
        SplitAtKeyLookup(child, key, v, q);
      } else {
        PrefixThrough(key, child.key, q);
      }
    } else {
      if key[..n] <= q {
        ForkLookup(child, key, n, v, q);
      } else {
        PrefixThrough(key[..n], child.key, q);
      }
    }
  }

  /** Insertion keeps the shape canonical and never makes the node itself less branching. */
  lemma {:induction false} CanonicalInsert<V>(t: Trie<V>, key: string, v: V)
    requires Canonical(t)
    ensures Canonical(InsertAt(t, key, v))
    ensures t.val.Some? ==> InsertAt(t, key, v).val.Some?
    ensures |InsertAt(t, key, v).kids| >= |t.kids|
  {
    if key != "" && key[0] in t.kids {
      var c := key[0];
      var child := t.kids[c];
      assert EdgeOk(c, child);
      var p := Lcp(child.key, key);
      var r := InsertAt(t, key, v);
      assert r.kids.Keys == t.kids.Keys;
      assert |r.kids| == |r.kids.Keys| && |t.kids| == |t.kids.Keys|;
      if p == child.key {
        CanonicalInsert(child, key[|p|..], v);
      } else if p != key {
        var f := Fork(child, key, |p|, v);
        assert |p| > 0;
        assert f.kids.Keys == {child.key[|p|], key[|p|]};
        assert |f.kids| == |f.kids.Keys| == 2;
      }
    }
  }

  lemma InsertUpdatesContents<V>(t: Trie<V>, key: string, v: V)
    requires Canonical(t)
    ensures Canonical(InsertAt(t, key, v))
    ensures Contents(InsertAt(t, key, v)) == Contents(t)[key := v]
  {
    var r := InsertAt(t, key, v);
    CanonicalInsert(t, key, v);
    var m, n := Contents(r), Contents(t)[key := v];
    forall q ensures q in m <==> q in n ensures q in m ==> m[q] == n[q] {
      LookupInsert(t, key, v, q);
      ContentsAt(t, q);
      ContentsAt(r, q);
    }
  }

  // ---------------------------------------------------------------- prefixes of keys

  /** Below every edge of a canonical shape there is a terminal node. */
  lemma {:induction false} SomeKeyBelow<V>(t: Trie<V>) returns (k: string)
    requires Canonical(t) && (t.val.Some? || t.kids != map[])
    ensures Lookup(t, k).Some?
    decreases t
  {
    if t.val.Some? {
      k := "";
    } else {
      var c :| c in t.kids;
      assert EdgeOk(c, t.kids[c]);
      assert t.kids[c].kids == map[] ==> |t.kids[c].kids| == 0;
      var s := SomeKeyBelow(t.kids[c]);
      k := t.kids[c].key + s;
      assert k[|t.kids[c].key|..] == s;
    }
  }

  /** The descent of `hasPrefix`. */
  function Reaches<V>(t: Trie<V>, prefix: string): bool {
    if prefix == "" then true
    else if prefix[0] !in t.kids then false
    else
      var child := t.kids[prefix[0]];
      if |prefix| <= |child.key| then prefix <= child.key
      else child.key <= prefix && Reaches(child, prefix[|child.key|..])
  }

  /** Keys found below a child are found below its parent, behind the child's label. */
  lemma LookupThroughEdge<V>(t: Trie<V>, c: char, s: string)
    requires c in t.kids && EdgeOk(c, t.kids[c])
    ensures Lookup(t, t.kids[c].key + s) == Lookup(t.kids[c], s)
  {
    var k := t.kids[c].key + s;
    assert k[|t.kids[c].key|..] == s;
  }

  lemma {:induction false} ReachesHasWitness<V>(t: Trie<V>, prefix: string) returns (k: string)
    requires Canonical(t) && (t.val.Some? || t.kids != map[]) && Reaches(t, prefix)
    ensures prefix <= k && Lookup(t, k).Some?
    decreases t
  {
    if prefix == "" {
      k := SomeKeyBelow(t);
    } else {
      var c := prefix[0];
      var child := t.kids[c];
      assert EdgeOk(c, child);
      assert child.kids == map[] ==> |child.kids| == 0;
      if |prefix| <= |child.key| {
        var s := SomeKeyBelow(child);
        LookupThroughEdge(t, c, s);
        k := child.key + s;
      } else {
        var s := ReachesHasWitness(child, prefix[|child.key|..]);
        LookupThroughEdge(t, c, s);
        k := child.key + s;
        assert prefix == child.key + prefix[|child.key|..];
      }
    }
  }

  lemma {:induction false} KeyIsReached<V>(t: Trie<V>, prefix: string, k: string)
    requires Lookup(t, k).Some? && prefix <= k
    ensures Reaches(t, prefix)
  {
    if prefix != "" {
      var child := t.kids[k[0]];
      if |prefix| > |child.key| {
        assert child.key == k[..|child.key|] == prefix[..|child.key|];
        KeyIsReached(child, prefix[|child.key|..], k[|child.key|..]);
      }
    }
  }

  ghost predicate SomeKeyStarts<V>(m: map<string, V>, prefix: string) {
    exists k :: k in m && prefix <= k
  }

  /** `hasPrefix` answers whether some stored key starts with the prefix. */
  lemma ReachesIffKeyBelow<V>(t: Trie<V>, prefix: string)
    requires Canonical(t) && prefix != ""
    ensures Reaches(t, prefix) <==> SomeKeyStarts(Contents(t), prefix)
  {
    ContentsIsLookup(t);
    if Reaches(t, prefix) {
      assert t.kids != map[];
      var k := ReachesHasWitness(t, prefix);
    }
    if k :| k in Contents(t) && prefix <= k {
      KeyIsReached(t, prefix, k);
    }
  }

  // ---------------------------------------------------------------- uniqueness of shapes

  ghost predicate SameAnswers<V(!new)>(a: Trie<V>, b: Trie<V>) {
    forall k :: Lookup(a, k) == Lookup(b, k)
  }

  /** Every key below an edge starts with the label of that edge. */
  lemma KeyStartsWithLabel<V>(t: Trie<V>, k: string)
    requires Lookup(t, k).Some? && k != ""
    ensures k[0] in t.kids && t.kids[k[0]].key <= k
  {
  }

  /** Two canonical nodes with the same answers cannot have a longer label on one side. */
  lemma LabelNotShorter<V(!new)>(a: Trie<V>, b: Trie<V>, c: char)
    requires Canonical(a) && Canonical(b) && SameAnswers(a, b)
    requires c in a.kids && c in b.kids
    ensures b.kids[c].key <= a.kids[c].key
  {
    var x, y := a.kids[c], b.kids[c];
    assert EdgeOk(c, x) && EdgeOk(c, y);
    if x.val.Some? {
      LookupThroughEdge(a, c, "");
      assert x.key + "" == x.key;
      KeyStartsWithLabel(b, x.key);
    } else {
      var d, e := TwoKids(x);
      var k1 := KeyVia(a, c, d);
      var k2 := KeyVia(a, c, e);
      KeyStartsWithLabel(b, k1);
      KeyStartsWithLabel(b, k2);
      var n := |x.key|;
      if |y.key| > n {
        assert false;
      }
      assert x.key == k1[..n] && y.key == k1[..|y.key|];
    }
  }

  lemma TwoKids<V>(t: Trie<V>) returns (d: char, e: char)
    requires |t.kids| >= 2
    ensures d in t.kids && e in t.kids && d != e
  {
    assert |t.kids| == |t.kids.Keys|;
    d :| d in t.kids;
    assert |t.kids.Keys - {d}| >= 1;
    e :| e in t.kids.Keys - {d};
  }

  /** A key that goes through child `c` and then through its child `d`. */
  lemma KeyVia<V>(t: Trie<V>, c: char, d: char) returns (k: string)
    requires Canonical(t) && c in t.kids && d in t.kids[c].kids
    ensures Lookup(t, k).Some? && t.kids[c].key < k && k[0] == c && k[|t.kids[c].key|] == d
  {
    var x := t.kids[c];
    assert EdgeOk(c, x) && EdgeOk(d, x.kids[d]);
    assert x.kids[d].kids == map[] ==> |x.kids[d].kids| == 0;
    var s := SomeKeyBelow(x.kids[d]);
    LookupThroughEdge(x, d, s);
    LookupThroughEdge(t, c, x.kids[d].key + s);
    k := x.key + (x.kids[d].key + s);
  }

  lemma SameFirstBytes<V(!new)>(a: Trie<V>, b: Trie<V>)
    requires Canonical(a) && SameAnswers(a, b)
    ensures a.kids.Keys <= b.kids.Keys
  {
    forall c | c in a.kids ensures c in b.kids {
      var x := a.kids[c];
      assert EdgeOk(c, x);
      assert x.kids == map[] ==> |x.kids| == 0;
      var s := SomeKeyBelow(x);
      LookupThroughEdge(a, c, s);
      KeyStartsWithLabel(b, x.key + s);
    }
  }

  /** A canonical shape is determined by the map it stands for. */
  lemma {:induction false} CanonicalIsUnique<V(!new)>(a: Trie<V>, b: Trie<V>)
    requires Canonical(a) && Canonical(b) && SameAnswers(a, b) && a.key == b.key
    ensures a == b
    decreases a
  {
    assert Lookup(a, "") == Lookup(b, "");
    SameFirstBytes(a, b);
    SameFirstBytes(b, a);
    forall c | c in a.kids ensures a.kids[c] == b.kids[c] {
      LabelNotShorter(a, b, c);
      LabelNotShorter(b, a, c);
      assert EdgeOk(c, a.kids[c]) && EdgeOk(c, b.kids[c]);
      forall s ensures Lookup(a.kids[c], s) == Lookup(b.kids[c], s) {
        LookupThroughEdge(a, c, s);
        LookupThroughEdge(b, c, s);
        assert Lookup(a, a.kids[c].key + s) == Lookup(b, a.kids[c].key + s);
      }
      CanonicalIsUnique(a.kids[c], b.kids[c]);
    }
    assert a.kids == b.kids;
  }

  lemma SameContentsSameShape<V(!new)>(a: Trie<V>, b: Trie<V>)
    requires Canonical(a) && Canonical(b) && Contents(a) == Contents(b) && a.key == b.key
    ensures a == b
  {
    forall k ensures Lookup(a, k) == Lookup(b, k) {
      ContentsAt(a, k);
      ContentsAt(b, k);
    }
    CanonicalIsUnique(a, b);
  }

  // ---------------------------------------------------------------- shapes without values

  /** The tree with its values struck out: labels, branching and terminal marks only. */
  function Erase<V>(t: Trie<V>): Trie<()> {
    Trie(t.key, Erased(t.val), map c | c in t.kids :: Erase(t.kids[c]))
  }

  function Erased<V>(v: Option<V>): Option<()> {
    if v.Some? then Some(()) else None
  }

  lemma {:induction false} EraseCanonical<V>(t: Trie<V>)
    requires Canonical(t)
    ensures Canonical(Erase(t))
  {
    forall c | c in t.kids ensures EdgeOk(c, Erase(t).kids[c]) && Canonical(Erase(t).kids[c]) {
      var x := t.kids[c];
      assert EdgeOk(c, x);
      assert Erase(x).kids.Keys == x.kids.Keys;
      assert |Erase(x).kids| == |Erase(x).kids.Keys| && |x.kids| == |x.kids.Keys|;
      EraseCanonical(x);
    }
  }

  lemma {:induction false} EraseLookup<V>(t: Trie<V>, k: string)
    ensures Lookup(Erase(t), k) == Erased(Lookup(t, k))
  {
    if k != "" && k[0] in t.kids && t.kids[k[0]].key <= k {
      EraseLookup(t.kids[k[0]], k[|t.kids[k[0]].key|..]);
    }
  }

  lemma ErasedAnswer<V>(t: Trie<V>, k: string)
    requires Canonical(t)
    ensures Lookup(Erase(t), k) == if k in Contents(t).Keys then Some(()) else None
  {
    hide Erase, Contents, Canonical, Lookup;
    EraseLookup(t, k);
    ContentsAt(t, k);
  }

  lemma ErasedLabel<V>(t: Trie<V>)
    ensures Erase(t).key == t.key
  {
  }

  /** The set of keys alone decides the tree up to the values it stores: two canonical trees,
      be their values of different types, have the same labels, the same branching and the
      same terminal nodes exactly when they hold the same keys. */
  lemma SameKeysSameShape<V(!new), W(!new)>(a: Trie<V>, b: Trie<W>)
    requires Canonical(a) && Canonical(b) && a.key == b.key
    ensures Contents(a).Keys == Contents(b).Keys <==> Erase(a) == Erase(b)
  {
    hide Erase, Contents, Canonical, Lookup;
    forall k: string
      ensures Lookup(Erase(a), k) == if k in Contents(a).Keys then Some(()) else None
      ensures Lookup(Erase(b), k) == if k in Contents(b).Keys then Some(()) else None
    {
      ErasedAnswer(a, k);
      ErasedAnswer(b, k);
    }
    if Contents(a).Keys == Contents(b).Keys {
      EraseCanonical(a);
      EraseCanonical(b);
      ErasedLabel(a);
      ErasedLabel(b);
      CanonicalIsUnique(Erase(a), Erase(b));
    }
    if Erase(a) == Erase(b) {
      forall k: string ensures k in Contents(a).Keys <==> k in Contents(b).Keys {
        assert Lookup(Erase(a), k) == Lookup(Erase(b), k);
      }
    }
  }

  // ---------------------------------------------------------------- whole runs

  datatype Op<V> = Insert(key: string, v: V) | Clear

  /** The tree after a run of public operations on a new tree; the last one comes last. */
  ghost function RunTree<V>(ops: seq<Op<V>>): Trie<V> {
    if ops == [] then EmptyTrie()
    else
      var t := RunTree(ops[..|ops| - 1]);
      match ops[|ops| - 1]
      case Insert(key, v) => if key == "" then t else InsertAt(t, key, v)
      case Clear => EmptyTrie()
  }

  /** The same run on a plain finite map. */
  ghost function RunMap<V>(ops: seq<Op<V>>): map<string, V> {
    if ops == [] then map[]
    else
      var m := RunMap(ops[..|ops| - 1]);
      match ops[|ops| - 1]
      case Insert(key, v) => if key == "" then m else m[key := v]
      case Clear => map[]
  }

  lemma {:induction false} RunRefinesMap<V>(ops: seq<Op<V>>)
    ensures Canonical(RunTree(ops)) && RunTree(ops).key == ""
    ensures Contents(RunTree(ops)) == RunMap(ops)
  {
    if ops != [] {
      var before := ops[..|ops| - 1];
      RunRefinesMap(before);
      if ops[|ops| - 1].Insert? && ops[|ops| - 1].key != "" {
        InsertUpdatesContents(RunTree(before), ops[|ops| - 1].key, ops[|ops| - 1].v);
      }
    }
  }

  /** Two runs leave the same shape exactly when they leave the same set of keys, whatever
      was inserted in which order and with which values. */
  lemma ShapeDependsOnKeys<V(!new), W(!new)>(ops1: seq<Op<V>>, ops2: seq<Op<W>>)
    ensures RunMap(ops1).Keys == RunMap(ops2).Keys <==> Erase(RunTree(ops1)) == Erase(RunTree(ops2))
  {
    RunRefinesMap(ops1);
    RunRefinesMap(ops2);
    SameKeysSameShape(RunTree(ops1), RunTree(ops2));
  }

  /** Values included: two runs leave the same tree, node for node, exactly when they leave
      the same map. */
  lemma ShapeIndependentOfHistory<V(!new)>(ops1: seq<Op<V>>, ops2: seq<Op<V>>)
    ensures RunMap(ops1) == RunMap(ops2) <==> RunTree(ops1) == RunTree(ops2)
  {
    RunRefinesMap(ops1);
    RunRefinesMap(ops2);
    if RunMap(ops1) == RunMap(ops2) {
      SameContentsSameShape(RunTree(ops1), RunTree(ops2));
    }
  }
}
