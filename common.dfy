/**
 * Shared vocabulary of the model: graphs as successor lists, sparse score
 * baskets, the two error kinds of the library, and finite sums over sets.
 */
module Common {

  /** A graph maps every node to the ordered list of its direct successors. */
  type Graph<K> = map<K, seq<K>>

  /** A sparse score map ("basket"): node -> weight, missing nodes weigh 0. */
  type Basket<K> = map<K, real>

  /** One basket per source node. */
  type Table<K> = map<K, Basket<K>>

  datatype Option<T> = None | Some(value: T)

  /** The library's two failure kinds; process termination becomes a value. */
  datatype Error<K> =
    | InvalidArgument(message: string)
    | NotFound(node: K, message: string)

  datatype Result<T, K> = Ok(value: T) | Err(error: Error<K>)

  /** Every successor of every node is itself a node of the graph. */
  ghost predicate Closed<K>(g: Graph<K>)
  {
    forall u, v :: u in g && v in g[u] ==> v in g
  }

  /** There is an edge u -> v. */
  ghost predicate Edge<K>(g: Graph<K>, u: K, v: K)
  {
    u in g && v in g[u]
  }

  /** u and v are joined by an edge in either direction. */
  ghost predicate Adjacent<K>(g: Graph<K>, u: K, v: K)
  {
    Edge(g, u, v) || Edge(g, v, u)
  }

  /** The graph has no edge at all. */
  ghost predicate Edgeless<K>(g: Graph<K>)
  {
    forall v :: v in g ==> g[v] == []
  }

  /** 2^64: size_t arithmetic wraps around modulo this. */
  const SizeModulus: nat := 0x1_0000_0000_0000_0000

  /** a - b computed on size_t. */
  function SizeSub(a: nat, b: nat): nat
  {
    (a - b) % SizeModulus
  }

  /** The weight of k in m, 0 when k is unmapped. */
  function Get<K>(m: Basket<K>, k: K): real
  {
    if k in m then m[k] else 0.0
  }

  function Abs(x: real): real
  {
    if x < 0.0 then -x else x
  }

  function Max(a: real, b: real): real
  {
    if a < b then b else a
  }

  function Min(a: real, b: real): real
  {
    if a < b then a else b
  }

  /** All weights of the basket are non-negative. */
  ghost predicate NonNegative<K>(m: Basket<K>)
  {
    forall k :: k in m ==> m[k] >= 0.0
  }

  /** The set of elements of a sequence. */
  function Elems<K>(s: seq<K>): set<K>
  {
    set x | x in s
  }

  /** A sequence without repetitions. */
  ghost predicate Distinct<K>(s: seq<K>)
  {
    forall i, j :: 0 <= i < j < |s| ==> s[i] != s[j]
  }

  /** The sum of f over a finite set, in an unspecified order. */
  ghost function SumSet<K>(s: set<K>, f: K -> real): real
    decreases |s|
  {
    if s == {} then 0.0 else var x :| x in s; f(x) + SumSet(s - {x}, f)
  }

  /** The sum does not depend on which element is taken out first. */
  lemma SumSetRemove<K>(s: set<K>, x: K, f: K -> real)
    requires x in s
    ensures SumSet(s, f) == f(x) + SumSet(s - {x}, f)
    decreases |s|
  {
    var y :| y in s && SumSet(s, f) == f(y) + SumSet(s - {y}, f);
    if y != x {
      SumSetRemove(s - {y}, x, f);
      SumSetRemove(s - {x}, y, f);
      assert s - {y} - {x} == s - {x} - {y};
    }
  }

  lemma SumSetAdd<K>(s: set<K>, x: K, f: K -> real)
    requires x !in s
    ensures SumSet(s + {x}, f) == SumSet(s, f) + f(x)
  {
    SumSetRemove(s + {x}, x, f);
    assert s + {x} - {x} == s;
  }

  /** Sums of two functions that agree on the set are equal. */
  lemma {:induction false} SumSetCongruence<K>(s: set<K>, f: K -> real, h: K -> real)
    requires forall x :: x in s ==> f(x) == h(x)
    ensures SumSet(s, f) == SumSet(s, h)
    decreases |s|
  {
    if s != {} {
      var x :| x in s;
      SumSetRemove(s, x, f);
      SumSetRemove(s, x, h);
      SumSetCongruence(s - {x}, f, h);
    }
  }

  /** A sum of non-negative terms is non-negative. */
  lemma {:induction false} SumSetNonNegative<K>(s: set<K>, f: K -> real)
    requires forall x :: x in s ==> f(x) >= 0.0
    ensures SumSet(s, f) >= 0.0
    decreases |s|
  {
    if s != {} {
      var x :| x in s;
      SumSetRemove(s, x, f);
      SumSetNonNegative(s - {x}, f);
    }
  }

  /** A sum of zero terms is zero. */
  lemma {:induction false} SumSetZero<K>(s: set<K>, f: K -> real)
    requires forall x :: x in s ==> f(x) == 0.0
    ensures SumSet(s, f) == 0.0
    decreases |s|
  {
    if s != {} {
      var x :| x in s;
      SumSetRemove(s, x, f);
      SumSetZero(s - {x}, f);
    }
  }

  /** Sums over disjoint sets add up. */
  lemma {:induction false} SumSetUnion<K>(a: set<K>, b: set<K>, f: K -> real)
    requires a !! b
    ensures SumSet(a + b, f) == SumSet(a, f) + SumSet(b, f)
    decreases |b|
  {
    if b != {} {
      var x :| x in b;
      var b' := b - {x};
      assert b == b' + {x};
      assert a + b == (a + b') + {x};
      SumSetUnion(a, b', f);
      SumSetAdd(b', x, f);
      SumSetAdd(a + b', x, f);
    } else {
      assert a + b == a;
    }
  }

  /** The sum over a one-element set. */
  lemma SumSetSingleton<K>(x: K, f: K -> real)
    ensures SumSet({x}, f) == f(x)
  {
    SumSetRemove({x}, x, f);
    assert {x} - {x} == {};
  }

  // ---------------------------------------------------------------------
  // The stop rule of the iterative computations
  // ---------------------------------------------------------------------

  /**
   * The loop of every iterative computation of the library starts with its
   * test value at the tolerance and runs a round while fewer than
   * `iterations` rounds ran and the test value is at least `tol`. With
   * `tests` the test values the rounds that ran left, in order: at least
   * one round ran and at most `iterations`, every round but the last left a
   * value of at least `tol`, and stopping early means the last left less.
   */
  ghost predicate StopsAfter(tests: seq<real>, iterations: nat, tol: real)
  {
    && 1 <= |tests| <= iterations
    && (forall j :: 0 <= j < |tests| - 1 ==> tests[j] >= tol)
    && (|tests| < iterations ==> tests[|tests| - 1] < tol)
  }

  /** The map giving each key of ks its value under f. */
  ghost function MapOf<K, V>(ks: set<K>, f: K -> V): (r: map<K, V>)
    ensures r.Keys == ks
    ensures forall k {:trigger r[k]} :: k in r ==> r[k] == f(k)
  {
    map k | k in ks :: f(k)
  }

  /** The values of f at 0, 1, ..., n - 1, in order. */
  function Prefix<T>(f: nat -> T, n: nat): (r: seq<T>)
    ensures |r| == n
  {
    if n == 0 then [] else Prefix(f, n - 1) + [f(n - 1)]
  }

  lemma {:induction false} PrefixAt<T>(f: nat -> T, n: nat, j: nat)
    requires j < n
    ensures Prefix(f, n)[j] == f(j)
  {
    if j < n - 1 {
      PrefixAt(f, n - 1, j);
    }
  }

  /**
   * Two runs whose test values agree as far as both go stop after the same
   * number of rounds: the stop rule determines the length of the run.
   */
  lemma StopsAfterUnique(a: seq<real>, b: seq<real>, iterations: nat, tol: real)
    requires StopsAfter(a, iterations, tol) && StopsAfter(b, iterations, tol)
    requires forall j :: 0 <= j < |a| && j < |b| ==> a[j] == b[j]
    ensures |a| == |b|
  {
  }

  /** With a negative tolerance and non-negative test values every round runs. */
  lemma StopsAfterNegative(tests: seq<real>, iterations: nat, tol: real)
    requires StopsAfter(tests, iterations, tol) && tol < 0.0
    requires forall j :: 0 <= j < |tests| ==> tests[j] >= 0.0
    ensures |tests| == iterations
  {
  }

  // ---------------------------------------------------------------------
  // Vectors: slices and the sets they list
  // ---------------------------------------------------------------------

  /** The nodes at the indices lo to hi - 1 of part. */
  ghost function Nodes<K>(part: seq<K>, lo: nat, hi: nat): set<K>
    requires lo <= hi <= |part|
    decreases hi - lo
  {
    if lo == hi then {} else Nodes(part, lo, hi - 1) + {part[hi - 1]}
  }

  lemma {:induction false} NodesAt<K>(part: seq<K>, lo: nat, hi: nat, x: K)
    requires lo <= hi <= |part|
    ensures x in Nodes(part, lo, hi) <==> exists j :: lo <= j < hi && part[j] == x
    decreases hi - lo
  {
    if lo < hi {
      NodesAt(part, lo, hi - 1, x);
    }
  }

  /** The nodes of part[a..c] are those of part[a..b] and of part[b..c], apart when part is distinct. */
  lemma {:induction false} NodesSplit<K>(part: seq<K>, a: nat, b: nat, c: nat)
    requires a <= b <= c <= |part|
    ensures Nodes(part, a, c) == Nodes(part, a, b) + Nodes(part, b, c)
    ensures Distinct(part) ==> Nodes(part, a, b) !! Nodes(part, b, c)
    decreases c - b
  {
    if b < c {
      NodesSplit(part, a, b, c - 1);
    }
    if Distinct(part) {
      forall x | x in Nodes(part, a, b) ensures x !in Nodes(part, b, c) {
        NodesAt(part, a, b, x);
        NodesAt(part, b, c, x);
      }
    }
  }

  /** The nodes of the whole vector part. */
  ghost function Contents<K>(part: seq<K>): set<K>
  {
    Nodes(part, 0, |part|)
  }

  /**
   * part lists the set A: its last element is in A and the elements before
   * it list the rest of A, so every element of A appears exactly once.
   */
  ghost predicate Lists<K>(part: seq<K>, A: set<K>)
    decreases |part|
  {
    if part == [] then A == {}
    else part[|part| - 1] in A && Lists(part[..|part| - 1], A - {part[|part| - 1]})
  }

  lemma {:induction false} ListsMeaning<K>(part: seq<K>, A: set<K>)
    requires Lists(part, A)
    ensures Distinct(part) && Contents(part) == A
    decreases |part|
  {
    if part != [] {
      var n := |part| - 1;
      var p, x := part[..n], part[n];
      ListsMeaning(p, A - {x});
      NodesPrefix(part, p, n);
      forall i, j | 0 <= i < j <= n ensures part[i] != part[j] {
        if j < n {
          assert part[i] == p[i] && part[j] == p[j];
        } else {
          NodesAt(p, 0, n, p[i]);
        }
      }
    }
  }

  /** A vector that lists A has one element per member of A. */
  lemma {:induction false} ListsSize<K>(part: seq<K>, A: set<K>)
    requires Lists(part, A)
    ensures |part| == |A|
    decreases |part|
  {
    if part != [] {
      ListsSize(part[..|part| - 1], A - {part[|part| - 1]});
    }
  }

  /** The elements of a vector that lists A are in A. */
  lemma ListsWithin<K>(part: seq<K>, A: set<K>)
    requires Lists(part, A)
    ensures forall j :: 0 <= j < |part| ==> part[j] in A
  {
    ListsMeaning(part, A);
    forall j | 0 <= j < |part| ensures part[j] in A {
      NodesAt(part, 0, |part|, part[j]);
    }
  }

  /** When every element of a vector that lists A is in V, so is all of A. */
  lemma ListsCovered<K>(part: seq<K>, A: set<K>, V: set<K>)
    requires Lists(part, A) && forall j :: 0 <= j < |part| ==> part[j] in V
    ensures A <= V
  {
    ListsMeaning(part, A);
    forall x | x in A ensures x in V {
      NodesAt(part, 0, |part|, x);
    }
  }

  /** The slices of a prefix are those of the whole vector. */
  lemma {:induction false} NodesPrefix<K>(part: seq<K>, p: seq<K>, hi: nat)
    requires |p| <= |part| && p == part[..|p|] && hi <= |p|
    ensures Nodes(part, 0, hi) == Nodes(p, 0, hi)
    decreases hi
  {
    if hi > 0 {
      NodesPrefix(part, p, hi - 1);
    }
  }
}
