/** The host's `std::map` as src/structs/tll.rs sees it: red-black tree nodes
    linked by pointers, with a sentinel node whose `parent` is the root, and
    the conversion of such a tree to the list of its values in key order. */
module Tll {

  /** A pointer to a `Tll` node: null, or the node it points at. The sentinel is
      a node with `isSentinel` set; in the host its `parent` is the root and the
      leaves of the tree point back at it. */
  datatype Tll<K, D> =
    | Null
    | Node(left: Tll<K, D>, parent: Tll<K, D>, right: Tll<K, D>,
           isRed: bool, isSentinel: bool, key: K, data: D)
  {
    /** A real entry of the map: neither null nor the sentinel. */
    predicate IsEntry() {
      Node? && !isSentinel
    }
  }

  /** `TllContainer`: the sentinel of a map and the number of entries the host
      says it holds. */
  datatype TllContainer<K, D> = TllContainer(sentinel: Tll<K, D>, size: nat)

  /** The entries below `n`, left subtree first: the order `in_order_traverse`
      visits them in. */
  function Entries<K, D>(n: Tll<K, D>): seq<(K, D)>
  {
    if n.IsEntry() then Entries(n.left) + [(n.key, n.data)] + Entries(n.right) else []
  }

  function Values<K, D>(e: seq<(K, D)>): (r: seq<D>)
    ensures |r| == |e| && forall i :: 0 <= i < |e| ==> r[i] == e[i].1
  {
    if e == [] then [] else [e[0].1] + Values(e[1..])
  }

  lemma {:induction false} ValuesAppend<K, D>(a: seq<(K, D)>, b: seq<(K, D)>)
    ensures Values(a + b) == Values(a) + Values(b)
  {
    if a == [] {
      assert a + b == b;
    } else {
      assert (a + b)[1..] == a[1..] + b;
      ValuesAppend(a[1..], b);
    }
  }

  /** The values below `n` in traversal order. */
  function InOrder<K, D>(n: Tll<K, D>): seq<D>
  {
    Values(Entries(n))
  }

  /** The node a conversion starts from: the root for the sentinel. */
  function Start<K, D>(tll: Tll<K, D>): Tll<K, D>
  {
    if tll.Node? && tll.isSentinel then tll.parent else tll
  }

  /** `in_order_traverse`: appends the values below `node` to `result`, left
      subtree first. Null and sentinel nodes add nothing. */
  method InOrderTraverse<K, D>(node: Tll<K, D>, result: seq<D>) returns (r: seq<D>)
    ensures r == result + InOrder(node)
    decreases node
  {
    if node.Null? || node.isSentinel {
      return result;
    }
    r := InOrderTraverse(node.left, result);
    r := r + [node.data];
    r := InOrderTraverse(node.right, r);
    ValuesAppend(Entries(node.left) + [(node.key, node.data)], Entries(node.right));
    ValuesAppend(Entries(node.left), [(node.key, node.data)]);
  }

  /** `impl From<&Tll<T, U>> for Vec<&U>`: the values of the map whose sentinel
      is `tll`, or of the subtree below `tll` when it is an ordinary node. */
  method ToVec<K, D>(tll: Tll<K, D>) returns (result: seq<D>)
    requires tll.Node?
    ensures result == InOrder(Start(tll))
  {
    result := [];
    if tll.isSentinel {
      if tll.parent.Null? || tll.parent.isSentinel {
        return result;
      }
      result := InOrderTraverse(tll.parent, result);
    } else {
      result := InOrderTraverse(tll, result);
    }
  }

  /** The number of entries reachable from `n` through `left` and `right`. */
  function Count<K, D>(n: Tll<K, D>): nat
  {
    if n.IsEntry() then Count(n.left) + 1 + Count(n.right) else 0
  }

  /** The conversion yields one value per entry. */
  lemma {:induction false} InOrderLength<K, D>(n: Tll<K, D>)
    ensures |InOrder(n)| == Count(n)
  {
    if n.IsEntry() {
      InOrderLength(n.left);
      InOrderLength(n.right);
    }
  }

  /** A container whose `size` is the number of entries its sentinel reaches,
      as the host keeps it. */
  predicate Consistent<K, D>(c: TllContainer<K, D>)
  {
    c.sentinel.Node? && c.sentinel.isSentinel && c.size == Count(Start(c.sentinel))
  }

  /** Converting the sentinel of a consistent container yields exactly `size`
      values, one per entry of the map. */
  lemma ContainerConversion<K, D>(c: TllContainer<K, D>)
    requires Consistent(c)
    ensures |InOrder(Start(c.sentinel))| == c.size
  {
    InOrderLength(Start(c.sentinel));
  }

  /** A sentinel with no real root converts to the empty list, and what a
      sentinel converts to depends on its `parent` alone: its own key, data,
      colour and `left`/`right` links never show up. */
  lemma SentinelConversion<K, D>(s: Tll<K, D>, s': Tll<K, D>)
    requires s.Node? && s.isSentinel && s'.Node? && s'.isSentinel && s.parent == s'.parent
    ensures InOrder(Start(s)) == InOrder(Start(s'))
    ensures (s.parent.Null? || s.parent.isSentinel) ==> InOrder(Start(s)) == []
  {
  }

  /** Every key below `n` satisfies `p`. */
  predicate AllKeys<K, D>(n: Tll<K, D>, p: K -> bool)
  {
    forall i :: 0 <= i < |Entries(n)| ==> p(Entries(n)[i].0)
  }

  /** The map's comparator is a strict order: at least transitive. */
  ghost predicate Transitive<K(!new)>(lt: (K, K) -> bool)
  {
    forall a, b, c :: lt(a, b) && lt(b, c) ==> lt(a, c)
  }

  /** The `std::map` ordering under the comparator `lt`: left keys below the
      node's key, right keys above it, in every subtree. */
  predicate SearchTree<K, D>(n: Tll<K, D>, lt: (K, K) -> bool)
  {
    n.IsEntry() ==>
      && SearchTree(n.left, lt) && SearchTree(n.right, lt)
      && AllKeys(n.left, k => lt(k, n.key))
      && AllKeys(n.right, k => lt(n.key, k))
  }

  predicate StrictlyIncreasing<K, D>(e: seq<(K, D)>, lt: (K, K) -> bool)
  {
    forall i, j :: 0 <= i < j < |e| ==> lt(e[i].0, e[j].0)
  }

  /** On a search tree the traversal visits the keys in ascending order of
      the comparator, so the values come out sorted by key. */
  lemma {:induction false} SearchTreeSorted<K(!new), D>(n: Tll<K, D>, lt: (K, K) -> bool)
    requires Transitive(lt) && SearchTree(n, lt)
    ensures StrictlyIncreasing(Entries(n), lt)
  {
    if n.IsEntry() {
      SearchTreeSorted(n.left, lt);
      SearchTreeSorted(n.right, lt);
      var l, r := Entries(n.left), Entries(n.right);
      var e := Entries(n);
      assert e == l + [(n.key, n.data)] + r;
      forall i, j | 0 <= i < j < |e|
        ensures lt(e[i].0, e[j].0)
      {
        if j < |l| {
          assert e[i] == l[i] && e[j] == l[j];
        } else if i < |l| {
          assert e[i] == l[i];
          if j > |l| {
            assert e[j] == r[j - |l| - 1];
          }
        } else if i == |l| {
          assert e[j] == r[j - |l| - 1];
        } else {
          assert e[i] == r[i - |l| - 1] && e[j] == r[j - |l| - 1];
        }
      }
    }
  }
}
