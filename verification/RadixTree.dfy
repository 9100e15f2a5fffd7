/** The radix tree on the heap: `insert` rewrites nodes in place and moves whole child
    tables between nodes when an edge splits. */
module RadixTrees {
  import opened Prelude
  import opened GoStrings
  import opened Tries

  class RadixNode<V> {
    var key: string
    var children: map<char, RadixNode<V>>
    var isEnd: bool
    var value: Option<V>

    ghost var Repr: set<RadixNode<V>>  // this node and everything below it
    ghost var shape: Trie<V>           // the value this subtree stands for

    /** No sharing and no cycles: the subtrees of different children are disjoint and none
        of them contains this node. */
    ghost predicate Valid()
      reads this, Repr
      decreases Repr, 1
    {
      && this in Repr
      && (forall c | c in children :: Owns(children[c]))
      && (forall c, d | c in children && d in children && c != d :: Apart(children[c], children[d]))
      && ShapeMatches()
    }

    ghost predicate Owns(child: RadixNode<V>)
      reads this, Repr
      decreases Repr, 0
    {
      this in Repr && child in Repr && child.Repr <= Repr && this !in child.Repr && child.Valid()
    }

    static ghost predicate Apart(a: RadixNode<V>, b: RadixNode<V>)
      reads a, b
    {
      a.Repr !! b.Repr
    }

    ghost predicate ShapeMatches()
      reads this, children.Values
    {
      && shape.key == key
      && (isEnd ==> value.Some?)
      && shape.val == (if isEnd then value else None)
      && shape.kids.Keys == children.Keys
      && forall c | c in children :: shape.kids[c] == children[c].shape
    }

    constructor (key: string)
      ensures Valid() && Repr == {this} && shape == Trie(key, None, map[])
      ensures this.key == key && children == map[] && !isEnd && value == None
    {
      this.key, children, isEnd, value := key, map[], false, None;
      Repr, shape := {this}, Trie(key, None, map[]);
    }

    /** As `Valid`, but the subtree of child `c` may have grown and changed its shape since
        this node's ghost fields were last set. */
    ghost predicate ValidBut(c: char)
      reads this, Repr, children.Values, set d, o | d in children && o in children[d].Repr :: o
    {
      && this in Repr && c in children
      && children[c].Valid() && this !in children[c].Repr
      && (forall d | d in children && d != c :: Owns(children[d]))
      && (forall d, e | d in children && e in children && d != e :: Apart(children[d], children[e]))
      && shape.key == key && (isEnd ==> value.Some?)
      && shape.val == (if isEnd then value else None)
      && shape.kids.Keys == children.Keys
      && forall d | d in children && d != c :: shape.kids[d] == children[d].shape
    }

    /** Brings the ghost fields up to date with child `c`. */
    ghost method Refresh(c: char)
      requires ValidBut(c)
      modifies this`Repr, this`shape
      ensures Valid()
      ensures Repr == old(Repr) + children[c].Repr
      ensures shape == old(shape).(kids := old(shape).kids[c := children[c].shape])
    {
      Repr := Repr + children[c].Repr;
      shape := shape.(kids := shape.kids[c := children[c].shape]);
      forall d | d in children ensures Owns(children[d]) && unchanged(children[d]) {
        hide RadixNode.Valid, ShapeMatches;
        children[d].Undisturbed();
      }
      assert ShapeMatches();
      hide Owns, ShapeMatches;
    }

    /** If only the subtree of child `c` has been written to, and has only gained new nodes,
        then this node is valid but for that child. */
    twostate lemma OnlyChildChanged(c: char)
      requires old(Valid()) && unchanged(this) && c in children && children[c].Valid()
      requires old(children[c].Repr) <= children[c].Repr
      requires fresh(children[c].Repr - old(children[c].Repr))
      requires forall o | o in Repr && o !in old(children[c].Repr) :: unchanged(o)
      ensures ValidBut(c)
    {
      forall d | d in children && d != c
        ensures unchanged(children[d]) && Owns(children[d]) && children[d].shape == old(children[d].shape)
        ensures Apart(children[d], children[c])
      {
        var e := children[d];
        assert old(Apart(e, children[c])) && old(Owns(e)) && old(e.Valid());
        assert old(e in e.Repr);
      }
    }

    /** Makes this node terminal. */
    method MarkEnd(v: V)
      requires Valid()
      modifies this
      ensures Valid() && Repr == old(Repr) && shape == old(shape).(val := Some(v))
    {
      isEnd, value, shape := true, Some(v), shape.(val := Some(v));
    }

    /** Files a new subtree under a first byte that is not in use yet. */
    method AddChild(c: char, child: RadixNode<V>)
      requires Valid() && c !in children
      requires child.Valid() && Repr !! child.Repr
      modifies this
      ensures Valid() && Repr == old(Repr) + child.Repr
      ensures shape == old(shape).(kids := old(shape).kids[c := child.shape])
    {
      children := children[c := child];
      Repr, shape := Repr + child.Repr, shape.(kids := shape.kids[c := child.shape]);
    }

    /** Overwrites all four fields of this node; the caller names the new abstract value. */
    method Become(key: string, children: map<char, RadixNode<V>>, isEnd: bool, value: Option<V>,
                  ghost newRepr: set<RadixNode<V>>, ghost newShape: Trie<V>)
      requires this in newRepr && (isEnd ==> value.Some?)
      requires forall c | c in children ::
                 && children[c].Valid() && this !in children[c].Repr
                 && children[c] in newRepr && children[c].Repr <= newRepr
      requires forall c, d | c in children && d in children && c != d :: Apart(children[c], children[d])
      requires newShape.key == key && newShape.val == (if isEnd then value else None)
      requires newShape.kids.Keys == children.Keys
      requires forall c | c in children :: newShape.kids[c] == children[c].shape
      modifies this
      ensures Valid() && Repr == newRepr && shape == newShape
    {
      this.key, this.children, this.isEnd, this.value := key, children, isEnd, value;
      Repr, shape := newRepr, newShape;
      forall c | c in children ensures Owns(children[c]) && unchanged(children[c]) {
        children[c].Undisturbed();
      }
      assert forall c, d | c in children && d in children && c != d :: Apart(children[c], children[d]);
    }

    /** A subtree nobody has written to is as valid as before. */
    twostate lemma Undisturbed()
      requires old(Valid()) && forall o | o in old(Repr) :: unchanged(o)
      ensures Valid() && unchanged(this)
    {
    }

    /** A terminal node without children. */
    constructor Leaf(key: string, v: V)
      ensures Valid() && Repr == {this} && shape == Tries.Leaf(key, v) && this.key == key
    {
      this.key, children, isEnd, value := key, map[], true, Some(v);
      Repr, shape := {this}, Tries.Leaf(key, v);
    }

    /** The lower half of a split edge: takes over the child table, flag and value of
        `child`, which its caller then overwrites. */
    constructor LowerHalf(child: RadixNode<V>, n: nat)
      requires child.Valid() && n <= |child.key|
      ensures Valid() && Repr == child.Repr - {child} + {this}
      ensures shape == Tail(child.shape, n) && key == child.key[n..]
    {
      key, children, isEnd, value := child.key[n..], child.children, child.isEnd, child.value;
      Repr, shape := child.Repr - {child} + {this}, Tail(child.shape, n);
    }
  }

  class RadixTree<V(!new)> {
    var root: RadixNode<V>
    var size: int

    ghost predicate Valid()
      reads this, root, root.Repr
    {
      && root.Valid() && Canonical(root.shape)
      && root.shape.key == "" && root.shape.val == None
      && size == |Contents()|
    }

    /** The finite map the tree stands for. */
    ghost function Contents(): map<string, V>
      reads this, root
    {
      Tries.Contents(root.shape)
    }

    constructor ()
      ensures Valid() && fresh(root.Repr) && root in root.Repr
      ensures Contents() == map[]
    {
      root := new RadixNode("");
      size := 0;
    }

    method Insert(key: string, value: V)
      requires Valid()
      modifies this`size, root.Repr
      ensures Valid() && root == old(root) && root in root.Repr && fresh(root.Repr - old(root.Repr))
      ensures Contents() == if key == "" then old(Contents()) else old(Contents())[key := value]
      ensures root.shape == if key == "" then old(root.shape)
                            else InsertAt(old(root.shape), key, value)
    {
      if key == "" {
        return;
      }
      InsertUpdatesContents(root.shape, key, value);
      ContentsAt(root.shape, key);
      InsertInto(root, key, value);
    }

    method InsertInto(node: RadixNode<V>, key: string, value: V)
      requires node.Valid() && Canonical(node.shape)
      modifies this`size, node.Repr
      ensures node.Valid() && fresh(node.Repr - old(node.Repr))
      ensures old(node.Repr) <= node.Repr
      ensures node.shape == InsertAt(old(node.shape), key, value)
      ensures size == old(size) + (if Lookup(old(node.shape), key).Some? then 0 else 1)
      decreases node.Repr, 1
    {
      if key == "" {
        if !node.isEnd {
          size := size + 1;
        }
        node.MarkEnd(value);
        return;
      }

      var firstChar := key[0];
      if firstChar !in node.children {
        var newNode := new RadixNode.Leaf(key, value);
        size := size + 1;
        node.AddChild(firstChar, newNode);
        return;
      }

      InsertThrough(node, firstChar, key, value);
    }

    /** Inserts below the child filed under the first byte of the key. */
    method InsertThrough(node: RadixNode<V>, c: char, key: string, value: V)
      requires node.Valid() && Canonical(node.shape)
      requires key != "" && key[0] == c && c in node.children
      modifies this`size, node.Repr
      ensures node.Valid() && fresh(node.Repr - old(node.Repr))
      ensures old(node.Repr) <= node.Repr
      ensures node.shape == InsertAt(old(node.shape), key, value)
      ensures size == old(size) + (if Lookup(old(node.shape), key).Some? then 0 else 1)
      decreases node.Repr, 0
    {
      var child := node.children[c];
      assert EdgeOk(c, child.shape);
      InsertBelow(child, key, value);
      node.OnlyChildChanged(c);
      node.Refresh(c);
    }

    /** The three cases of an edge that shares its first byte with the key. */
    method InsertBelow(child: RadixNode<V>, key: string, value: V)
      requires child.Valid() && Canonical(child.shape)
      requires key != "" && child.key != "" && child.key[0] == key[0]
      modifies this`size, child.Repr
      ensures child.Valid() && fresh(child.Repr - old(child.Repr))
      ensures old(child.Repr) <= child.Repr
      ensures child.shape == InsertOnEdge(old(child.shape), key, value)
      ensures size == old(size) + (if LookupOnEdge(old(child.shape), key).Some? then 0 else 1)
      decreases child.Repr, 2
    {
      var commonPrefix := LongestCommonPrefix(child.key, key);
      ghost var before := child.shape;
      if commonPrefix == child.key {
        InsertInto(child, key[|commonPrefix|..], value);
      } else if commonPrefix == key {
        SplitEdge(child, key, value);
      } else {
        ForkEdge(child, key, |commonPrefix|, value);
      }
    }

    /** The key ends inside the edge: `child` becomes its terminal upper half. */
    method SplitEdge(child: RadixNode<V>, key: string, value: V)
      requires child.Valid() && "" < key < child.key
      modifies this`size, child
      ensures child.Valid() && old(child.Repr) <= child.Repr && fresh(child.Repr - old(child.Repr))
      ensures child.shape == SplitAtKey(old(child.shape), key, value)
      ensures size == old(size) + 1
    {
      assert child.ShapeMatches() && child in child.Repr;
      hide RadixNode.Valid;
      var splitNode := new RadixNode.LowerHalf(child, |key|);
      size := size + 1;
      child.Become(key, map[splitNode.key[0] := splitNode], true, Some(value),
                   child.Repr + {splitNode}, SplitAtKey(child.shape, key, value));
    }

    /** The key leaves the edge after `n` bytes: `child` becomes the branching point above its
        own lower half and a new leaf. */
    method ForkEdge(child: RadixNode<V>, key: string, n: nat, value: V)
      requires child.Valid() && 0 < n < |child.key| && n < |key|
      requires key[..n] == child.key[..n] && key[n] != child.key[n]
      modifies this`size, child
      ensures child.Valid() && old(child.Repr) <= child.Repr && fresh(child.Repr - old(child.Repr))
      ensures child.shape == Fork(old(child.shape), key, n, value)
      ensures size == old(size) + 1
    {
      assert child.ShapeMatches() && child in child.Repr;
      hide RadixNode.Valid;
      var existingNode := new RadixNode.LowerHalf(child, n);
      var newNode := new RadixNode.Leaf(key[n..], value);
      var c, d := existingNode.key[0], newNode.key[0];
      ghost var upper := Fork(child.shape, key, n, value);
      assert c != d && upper.kids == map[c := existingNode.shape, d := newNode.shape];
      hide Fork;
      ghost var nodes := child.Repr + {existingNode, newNode};
      assert existingNode.Repr <= nodes && newNode.Repr <= nodes;
      size := size + 1;
      child.Become(key[..n], map[c := existingNode, d := newNode], false, None,
                   nodes, upper);
    }

    /** `Search`: the last value inserted under a non-empty key. */
    method Search(key: string) returns (found: Option<V>)
      requires Valid()
      ensures found == if key in Contents() then Some(Contents()[key]) else None
    {
      ContentsAt(root.shape, key);
      if key == "" {
        return None;
      }
      var node := FindNode(root, key);
      found := if node != null && node.isEnd then node.value else None;
    }

    method FindNode(node: RadixNode<V>, key: string) returns (r: RadixNode?<V>)
      requires node.Valid()
      ensures r == null ==> Lookup(node.shape, key) == None
      ensures r != null ==> r in node.Repr && r.ShapeMatches() && Lookup(node.shape, key) == r.shape.val
      decreases node.Repr
    {
      if key == "" {
        return node;
      }
      var firstChar := key[0];
      if firstChar !in node.children {
        return null;
      }
      var child := node.children[firstChar];
      if HasPrefix(key, child.key) {
        r := FindNode(child, key[|child.key|..]);
      } else {
        r := null;
      }
    }

    /** `HasPrefix`: whether some stored key starts with `prefix`; the empty prefix always does. */
    method HasKeyPrefix(prefix: string) returns (b: bool)
      requires Valid()
      ensures b <==> prefix == "" || SomeKeyStarts(Contents(), prefix)
    {
      if prefix == "" {
        return true;
      }
      b := ReachesPrefix(root, prefix);
      ReachesIffKeyBelow(root.shape, prefix);
    }

    method ReachesPrefix(node: RadixNode<V>, prefix: string) returns (b: bool)
      requires node.Valid()
      ensures b == Reaches(node.shape, prefix)
      decreases node.Repr
    {
      if prefix == "" {
        return true;
      }
      var firstChar := prefix[0];
      if firstChar !in node.children {
        return false;
      }
      var child := node.children[firstChar];
      assert node.Owns(child) && child.Valid();
      if |prefix| <= |child.key| {
        return HasPrefix(child.key, prefix);
      }
      if HasPrefix(prefix, child.key) {
        b := ReachesPrefix(child, prefix[|child.key|..]);
      } else {
        b := false;
      }
    }

    /** `MatchesWildcard`: the value of the longest stored key that is a dot-suffix. */
    method MatchesWildcard(domain: string) returns (found: Option<V>)
      requires Valid()
      ensures WildcardAnswer(Contents(), domain, found)
    {
      ghost var m := Contents();
      var parts := Split(domain, '.');
      var i := 1;
      while i < |parts|
        invariant 1 <= i <= |parts|
        invariant NoHitBefore(m.Keys, domain, i)
      {
        var suffix := Join(parts[i..], '.');
        assert suffix == SuffixAt(domain, i);
        found := Search(suffix);
        if found.Some? {
          FirstRoundIsLongest(m, domain, i);
          return;
        }
        NoHitBeforeNext(m.Keys, domain, i);
        i := i + 1;
      }
      NoRoundNoHit(m, domain);
      found := None;
    }

    method Size() returns (n: int)
      requires Valid()
      ensures n == |Contents()|
    {
      n := size;
    }

    method LongestCommonPrefix(str1: string, str2: string) returns (p: string)
      ensures p == Lcp(str1, str2)
    {
      var minLen := if |str2| < |str1| then |str2| else |str1|;
      var i := 0;
      while i < minLen && str1[i] == str2[i]
        invariant 0 <= i <= minLen
        invariant str1[..i] == str2[..i]
      {
        i := i + 1;
      }
      LcpIsMaximal(str1, str2, i);
      p := str1[..i];
    }

    method Clear()
      requires Valid()
      modifies this
      ensures Valid() && fresh(root.Repr) && root in root.Repr
      ensures Contents() == map[]
    {
      root := new RadixNode("");
      size := 0;
    }
  }

  /** Two trees hold the same keys exactly when they have the same shape up to their values,
      whatever was inserted when. */
  lemma EqualKeysEqualShapes<V(!new), W(!new)>(a: RadixTree<V>, b: RadixTree<W>)
    requires a.Valid() && b.Valid()
    ensures a.Contents().Keys == b.Contents().Keys <==> Erase(a.root.shape) == Erase(b.root.shape)
  {
    SameKeysSameShape(a.root.shape, b.root.shape);
  }

  /** The same with values: equal contents and equal shapes come to the same. */
  lemma EqualMapsEqualShapes<V(!new)>(a: RadixTree<V>, b: RadixTree<V>)
    requires a.Valid() && b.Valid()
    ensures a.Contents() == b.Contents() <==> a.root.shape == b.root.shape
  {
    if a.Contents() == b.Contents() {
      Tries.SameContentsSameShape(a.root.shape, b.root.shape);
    }
  }

  /** Agreeing on `n` bytes and not on a further one pins down the common prefix. */
  lemma {:induction false} LcpIsMaximal(a: string, b: string, n: nat)
    requires n <= |a| && n <= |b| && a[..n] == b[..n]
    requires n == |a| || n == |b| || a[n] != b[n]
    ensures Lcp(a, b) == a[..n]
  {
    if n > 0 {
      assert a[..n][0] == b[..n][0];
      assert a[1..][..n - 1] == a[..n][1..] && b[1..][..n - 1] == b[..n][1..];
      LcpIsMaximal(a[1..], b[1..], n - 1);
      assert a[..n] == [a[0]] + a[1..][..n - 1];
    }
  }

  // ---------------------------------------------------------------- wildcard lookups

  /** `p` is the longest key of `m` that is a dot-suffix of `d`. */
  ghost predicate LongestHit<V>(m: map<string, V>, d: string, p: string) {
    && p in m && DotSuffix(p, d)
    && forall p' | p' in m && DotSuffix(p', d) :: |p'| <= |p|
  }

  /** The answer a wildcard lookup of `d` in `m` must give. */
  ghost predicate WildcardAnswer<V>(m: map<string, V>, d: string, answer: Option<V>) {
    match answer
    case None => forall p | p in m :: !DotSuffix(p, d)
    case Some(v) => exists p :: LongestHit(m, d, p) && v == m[p]
  }

  lemma WildcardAnswerIsUnique<V>(m: map<string, V>, d: string, a: Option<V>, b: Option<V>)
    requires WildcardAnswer(m, d, a) && WildcardAnswer(m, d, b)
    ensures a == b
  {
    if a.Some? && b.Some? {
      var p :| LongestHit(m, d, p) && a.value == m[p];
      var q :| LongestHit(m, d, q) && b.value == m[q];
      assert p == d[|d| - |p|..] && q == d[|d| - |q|..];
    }
  }

  /** No round of the suffix loop below round `i` hits one of `keys`. */
  ghost predicate NoHitBefore(keys: set<string>, d: string, i: nat)
    requires i <= |Split(d, '.')|
  {
    forall j | 1 <= j < i :: SuffixAt(d, j) !in keys
  }

  lemma NoHitBeforeNext(keys: set<string>, d: string, i: nat)
    requires i < |Split(d, '.')| && NoHitBefore(keys, d, i) && SuffixAt(d, i) !in keys
    ensures NoHitBefore(keys, d, i + 1)
  {
  }

  /** The first round that hits has found the longest key. */
  lemma FirstRoundIsLongest<V>(m: map<string, V>, d: string, i: nat)
    requires 1 <= i < |Split(d, '.')| && SuffixAt(d, i) in m
    requires NoHitBefore(m.Keys, d, i)
    ensures LongestHit(m, d, SuffixAt(d, i))
  {
    SuffixAtIsDotSuffix(d, i);
    forall p | p in m && DotSuffix(p, d) ensures |p| <= |SuffixAt(d, i)| {
      var j := DotSuffixHasRound(p, d);
      if j > i {
        SuffixAtShrinks(d, i, j);
      }
    }
  }

  lemma NoRoundNoHit<V>(m: map<string, V>, d: string)
    requires NoHitBefore(m.Keys, d, |Split(d, '.')|)
    ensures WildcardAnswer(m, d, None)
  {
    forall p | p in m ensures !DotSuffix(p, d) {
      if DotSuffix(p, d) {
        var j := DotSuffixHasRound(p, d);
      }
    }
  }
}
