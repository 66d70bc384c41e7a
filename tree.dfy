/** HuffmanCompressor.Tree: the frequency table of one alphabet, the
    Huffman trie built from it, the code lengths (clamped to maxLength)
    and the canonical codes, and the run-length coding of its lengths. */
module HuffmanTree {
  import opened JavaErrors
  import opened Bits
  import opened Canonical
  import opened HuffTree
  import opened CodeLengths
  import opened PendingWrites

  // ---------------------------------------------------------------------
  // The priority queue of buildTree, as a sequence.

  /** The symbols below n of nonzero frequency, each once. */
  ghost function NonzeroUpTo(f: seq<int>, n: int): multiset<int>
    requires 0 <= n <= |f|
  {
    if n == 0 then multiset{}
    else NonzeroUpTo(f, n - 1) + (if f[n - 1] != 0 then multiset{n - 1} else multiset{})
  }

  lemma {:induction false} NonzeroUpToCount(f: seq<int>, n: int)
    requires 0 <= n <= |f|
    ensures forall x :: NonzeroUpTo(f, n)[x] == if 0 <= x < n && f[x] != 0 then 1 else 0
  {
    if n > 0 {
      NonzeroUpToCount(f, n - 1);
    }
  }

  /** The queue after buildTree's first loop has looked at symbols
      0..n-1: a leaf for each one of nonzero frequency, in symbol order. */
  function LeafQueue(f: seq<int>, n: int): seq<HNode>
    requires 0 <= n <= |f|
  {
    if n == 0 then [] else LeafQueue(f, n - 1) + (if f[n - 1] != 0 then [Leaf(n - 1, f[n - 1])] else [])
  }

  /** Its trees are leaves carrying their symbols' frequencies. */
  lemma {:induction false} LeafQueueLeaves(f: seq<int>, n: int)
    requires 0 <= n <= |f|
    ensures forall k :: 0 <= k < |LeafQueue(f, n)| ==> LeafQueue(f, n)[k].Leaf? && FreqsMatch(LeafQueue(f, n)[k], f)
  {
    if n > 0 {
      LeafQueueLeaves(f, n - 1);
      var p := LeafQueue(f, n - 1);
      var e: seq<HNode> := if f[n - 1] != 0 then [Leaf(n - 1, f[n - 1])] else [];
      assert LeafQueue(f, n) == p + e;
      forall k | 0 <= k < |p + e|
        ensures (p + e)[k].Leaf? && FreqsMatch((p + e)[k], f)
      {
        if k < |p| {
          assert (p + e)[k] == p[k];
        }
      }
    }
  }

  /** It holds exactly the symbols of nonzero frequency. */
  lemma {:induction false} LeafQueueSyms(f: seq<int>, n: int)
    requires 0 <= n <= |f|
    ensures QSyms(LeafQueue(f, n)) == NonzeroUpTo(f, n)
  {
    if n > 0 {
      var p := LeafQueue(f, n - 1);
      var e: seq<HNode> := if f[n - 1] != 0 then [Leaf(n - 1, f[n - 1])] else [];
      var m: multiset<int> := if f[n - 1] != 0 then multiset{n - 1} else multiset{};
      assert QSyms(p) == NonzeroUpTo(f, n - 1) by {
        LeafQueueSyms(f, n - 1);
      }
      assert QSyms(e) == m by {
        if f[n - 1] != 0 {
          QSymsSingle(Leaf(n - 1, f[n - 1]));
        }
      }
      assert QSyms(LeafQueue(f, n)) == QSyms(p) + QSyms(e) by {
        QSymsAppend(p, e);
      }
    }
  }

  /** The queue buildTree starts combining from: the leaves, with a lone
      leaf wrapped in a node of its own. */
  ghost function StartQueue(f: seq<int>): seq<HNode>
  {
    var q := LeafQueue(f, |f|);
    if |q| == 1 then [Lone(q[0])] else q
  }

  lemma StartQueueFacts(f: seq<int>)
    ensures forall k :: 0 <= k < |StartQueue(f)| ==> FreqsMatch(StartQueue(f)[k], f)
    ensures |StartQueue(f)| == 1 ==> !StartQueue(f)[0].Leaf?
    ensures QSyms(StartQueue(f)) == NonzeroUpTo(f, |f|)
  {
    LeafQueueLeaves(f, |f|);
    LeafQueueSyms(f, |f|);
    var q := LeafQueue(f, |f|);
    if |q| == 1 {
      LoneFacts(q[0], f);
    }
  }

  /** Wrapping a lone leaf keeps its symbol and frequency. */
  lemma LoneFacts(t: HNode, f: seq<int>)
    requires FreqsMatch(t, f)
    ensures QSyms([Lone(t)]) == QSyms([t])
    ensures forall k :: 0 <= k < 1 ==> FreqsMatch([Lone(t)][k], f)
  {
    QSymsSingle(t);
    QSymsSingle(Lone(t));
  }

  /** All symbols held by the trees of the queue. */
  ghost function QSyms(q: seq<HNode>): multiset<int>
  {
    if |q| == 0 then multiset{} else Syms(q[0]) + QSyms(q[1..])
  }

  lemma {:induction false} QSymsAppend(a: seq<HNode>, b: seq<HNode>)
    ensures QSyms(a + b) == QSyms(a) + QSyms(b)
  {
    if |a| > 0 {
      assert (a + b)[0] == a[0];
      assert (a + b)[1..] == a[1..] + b;
      QSymsAppend(a[1..], b);
    } else {
      assert a + b == b;
    }
  }

  lemma QSymsSingle(t: HNode)
    ensures QSyms([t]) == Syms(t)
  {
    assert [t][1..] == [];
  }

  /** What is left of the queue after buildTree's second loop: nothing
      exactly when no symbol has a nonzero frequency, and otherwise one
      trie holding each such symbol once. */
  lemma RootFacts(q: seq<HNode>, f: seq<int>)
    requires |q| <= 1 && QSyms(q) == NonzeroUpTo(f, |f|)
    ensures |q| == 0 <==> forall s :: 0 <= s < |f| ==> f[s] == 0
    ensures |q| == 1 ==> Syms(q[0]) == NonzeroUpTo(f, |f|)
  {
    NonzeroUpToCount(f, |f|);
    NonzeroEmpty(f);
    if |q| == 1 {
      QSymsSingle(q[0]);
      SymsNonempty(q[0]);
    } else {
      assert q == [];
    }
  }

  /** The trie buildTree takes from what is left of the queue. */
  lemma TrieOfQueue(q: seq<HNode>, f: seq<int>)
    requires |q| <= 1 && QSyms(q) == NonzeroUpTo(f, |f|)
    requires forall k :: 0 <= k < |q| ==> FreqsMatch(q[k], f)
    requires |q| == 1 ==> !q[0].Leaf?
    ensures TrieFor(if |q| > 0 then Some(q[0]) else None, f)
  {
    RootFacts(q, f);
  }

  lemma NonzeroEmpty(f: seq<int>)
    ensures NonzeroUpTo(f, |f|) == multiset{} <==> forall s :: 0 <= s < |f| ==> f[s] == 0
  {
    NonzeroEmptyUpTo(f, |f|);
  }

  lemma {:induction false} NonzeroEmptyUpTo(f: seq<int>, n: int)
    requires 0 <= n <= |f|
    ensures NonzeroUpTo(f, n) == multiset{} <==> forall s :: 0 <= s < n ==> f[s] == 0
  {
    if n > 0 {
      NonzeroEmptyUpTo(f, n - 1);
      var e := if f[n - 1] != 0 then multiset{n - 1} else multiset{};
      assert |NonzeroUpTo(f, n)| == |NonzeroUpTo(f, n - 1)| + |e|;
    }
  }

  lemma {:induction false} SymsNonempty(t: HNode)
    ensures |Syms(t)| > 0
  {
    match t
    case Leaf(_, _) =>
    case Pair(z, o) => SymsNonempty(z);
    case Lone(o) => SymsNonempty(o);
  }

  /** The first tree of least weight. */
  function MinIndex(q: seq<HNode>): (k: int)
    requires |q| > 0
    ensures 0 <= k < |q|
    ensures forall j :: 0 <= j < |q| ==> Weight(q[k]) <= Weight(q[j])
    ensures forall j :: 0 <= j < k ==> Weight(q[j]) > Weight(q[k])
  {
    if |q| == 1 then 0
    else
      var k := MinIndex(q[..|q| - 1]);
      assert forall j :: 0 <= j < |q| - 1 ==> q[..|q| - 1][j] == q[j];
      if Weight(q[|q| - 1]) < Weight(q[k]) then |q| - 1 else k
  }

  /** PriorityQueue.remove(): a tree of least weight (the first such one:
      java.util.PriorityQueue leaves ties unspecified) and the rest. */
  function RemoveMin(q: seq<HNode>): (r: (HNode, seq<HNode>))
    requires |q| > 0
    ensures |r.1| == |q| - 1
    ensures forall j :: 0 <= j < |q| ==> Weight(r.0) <= Weight(q[j])
    ensures QSyms(q) == Syms(r.0) + QSyms(r.1)
    ensures forall t :: t in r.1 ==> t in q
    ensures r.0 in q
  {
    var k := MinIndex(q);
    RemoveAtSyms(q, k);
    RemoveAtMembers(q, k);
    (q[k], q[..k] + q[k + 1..])
  }

  /** Taking tree k out of the queue keeps the symbols of the others. */
  lemma {:induction false} RemoveAtSyms(q: seq<HNode>, k: int)
    requires 0 <= k < |q|
    ensures QSyms(q) == Syms(q[k]) + QSyms(q[..k] + q[k + 1..])
  {
    var rest := q[..k] + q[k + 1..];
    if k == 0 {
      assert rest == q[1..];
    } else {
      var tail, tailRest := q[1..], q[1..][..k - 1] + q[1..][k..];
      assert QSyms(tail) == Syms(q[k]) + QSyms(tailRest) by {
        RemoveAtSyms(tail, k - 1);
        assert tail[k - 1] == q[k];
      }
      assert QSyms(rest) == Syms(q[0]) + QSyms(tailRest) by {
        assert rest[0] == q[0];
        assert rest[1..] == tailRest;
      }
    }
  }

  /** ... and the other trees themselves. */
  lemma RemoveAtMembers(q: seq<HNode>, k: int)
    requires 0 <= k < |q|
    ensures forall t :: t in q[..k] + q[k + 1..] ==> t in q
  {
    var rest := q[..k] + q[k + 1..];
    assert forall j :: 0 <= j < |rest| ==> rest[j] == q[if j < k then j else j + 1];
  }

  /** One step of buildTree's second loop keeps the symbols of the queue
      and the frequencies of its leaves. */
  lemma PairStep(q: seq<HNode>, a: HNode, rest: seq<HNode>, b: HNode, rest2: seq<HNode>, f: seq<int>)
    requires |q| > 1 && (a, rest) == RemoveMin(q) && (b, rest2) == RemoveMin(rest)
    requires forall k :: 0 <= k < |q| ==> FreqsMatch(q[k], f)
    ensures QSyms(rest2 + [Pair(a, b)]) == QSyms(q)
    ensures forall k :: 0 <= k < |rest2 + [Pair(a, b)]| ==> FreqsMatch((rest2 + [Pair(a, b)])[k], f)
  {
    QSymsAppend(rest2, [Pair(a, b)]);
    QSymsSingle(Pair(a, b));
    var q' := rest2 + [Pair(a, b)];
    forall k | 0 <= k < |q'|
      ensures FreqsMatch(q'[k], f)
    {
      if k < |rest2| {
        assert q'[k] == rest2[k] && rest2[k] in rest && rest2[k] in q;
      }
    }
  }

  // ---------------------------------------------------------------------
  // Sums over arrays.

  function Sum(s: seq<int>): int
  {
    if |s| == 0 then 0 else Sum(s[..|s| - 1]) + s[|s| - 1]
  }

  lemma {:induction false} SumUpdate(s: seq<int>, i: int, v: int)
    requires 0 <= i < |s|
    ensures Sum(s[i := v]) == Sum(s) - s[i] + v
  {
    var t := s[i := v];
    if i < |s| - 1 {
      assert t[..|t| - 1] == s[..|s| - 1][i := v];
      SumUpdate(s[..|s| - 1], i, v);
    } else {
      assert t[..|t| - 1] == s[..|s| - 1];
    }
  }

  lemma {:induction false} SumZero(s: seq<int>)
    requires forall k :: 0 <= k < |s| ==> s[k] == 0
    ensures Sum(s) == 0
  {
    if |s| > 0 {
      SumZero(s[..|s| - 1]);
    }
  }

  /** Giving symbol i the length v moves it from the count of its old
      length to the count of v. */
  lemma {:induction false} CountLenUpdate(lens: seq<int>, n: int, i: int, v: int, b: int)
    requires 0 <= n <= |lens| && 0 <= i < |lens|
    ensures CountLen(lens[i := v], n, b) ==
      CountLen(lens, n, b) + (if i < n then (if v == b then 1 else 0) - (if lens[i] == b then 1 else 0) else 0)
  {
    if n > 0 {
      CountLenUpdate(lens, n - 1, i, v, b);
    }
  }

  lemma {:induction false} CountLenZero(lens: seq<int>, n: int, b: int)
    requires 0 <= n <= |lens| && b != 0
    requires forall k :: 0 <= k < |lens| ==> lens[k] == 0
    ensures CountLen(lens, n, b) == 0
  {
    if n > 0 {
      CountLenZero(lens, n - 1, b);
    }
  }

  /** What getEncodedLength adds up: the bits the counted symbols take. */
  function EncodedLength(freqs: seq<int>, length: seq<int>, n: int): int
    requires 0 <= n <= |freqs| && n <= |length|
  {
    if n == 0 then 0 else EncodedLength(freqs, length, n - 1) + freqs[n - 1] * length[n - 1]
  }

  /** Counting one more occurrence of symbol s adds its code length. */
  lemma {:induction false} EncodedLengthTally(freqs: seq<int>, length: seq<int>, n: int, s: int)
    requires 0 <= n <= |freqs| && n <= |length| && 0 <= s < |freqs|
    ensures EncodedLength(freqs[s := freqs[s] + 1], length, n) ==
      EncodedLength(freqs, length, n) + (if s < n then length[s] else 0)
  {
    if n > 0 {
      EncodedLengthTally(freqs, length, n - 1, s);
      if s == n - 1 {
        assert (freqs[s] + 1) * length[s] == freqs[s] * length[s] + length[s];
      }
    }
  }

  lemma {:induction false} EncodedLengthZero(freqs: seq<int>, length: seq<int>, n: int)
    requires 0 <= n <= |freqs| && n <= |length|
    requires forall k :: 0 <= k < |freqs| ==> freqs[k] == 0
    ensures EncodedLength(freqs, length, n) == 0
  {
    if n > 0 {
      EncodedLengthZero(freqs, length, n - 1);
    }
  }

  // ---------------------------------------------------------------------
  // writeTree's output.

  /** The write for one item of the code-length coding: a symbol goes out
      as its code from the bit-length tree (codes and lengths of that
      tree), an extra field as itself. */
  function WriteOf(e: Emit, codes: seq<bv16>, lens: seq<int>): Write
  {
    match e
    case Symbol(s) => if 0 <= s < |codes| && s < |lens| then Bits(codes[s] as int, lens[s]) else Bits(0, 0)
    case Extra(v, w) => Bits(v, w)
  }

  function Render(es: seq<Emit>, codes: seq<bv16>, lens: seq<int>): (r: seq<Write>)
    ensures |r| == |es|
  {
    if |es| == 0 then [] else [WriteOf(es[0], codes, lens)] + Render(es[1..], codes, lens)
  }

  lemma {:induction false} RenderAppend(a: seq<Emit>, b: seq<Emit>, codes: seq<bv16>, lens: seq<int>)
    ensures Render(a + b, codes, lens) == Render(a, codes, lens) + Render(b, codes, lens)
  {
    if |a| > 0 {
      assert (a + b)[0] == a[0];
      assert (a + b)[1..] == a[1..] + b;
      RenderAppend(a[1..], b, codes, lens);
    } else {
      assert a + b == b;
    }
  }

  /** numCodes as buildTree sets it: one past the last symbol of nonzero
      frequency, but at least minNumCodes. */
  ghost predicate CodesCover(f: seq<int>, numCodes: int, minCodes: int)
  {
    numCodes >= minCodes &&
    (forall s :: 0 <= s < |f| && f[s] != 0 ==> s < numCodes) &&
    (numCodes == minCodes || (1 <= numCodes <= |f| && f[numCodes - 1] != 0))
  }

  lemma NumCodesBound(f: seq<int>, maxCode: int, minCodes: int)
    requires 0 <= maxCode < |f| && minCodes >= 1
    requires forall s :: maxCode < s < |f| ==> f[s] == 0
    requires maxCode == 0 || f[maxCode] != 0
    ensures CodesCover(f, Max(maxCode + 1, minCodes), minCodes)
  {
  }

  function Min(a: int, b: int): int
  {
    if a < b then a else b
  }

  function Max(a: int, b: int): int
  {
    if a > b then a else b
  }

  /** The trie buildTree leaves for the frequencies f: its leaves are the
      symbols of nonzero frequency, each once, with their frequencies; it
      is None exactly when there are none. */
  ghost predicate TrieFor(root: Option<HNode>, f: seq<int>)
  {
    (root.None? <==> forall s :: 0 <= s < |f| ==> f[s] == 0) &&
    (root.Some? ==>
      !root.value.Leaf? && FreqsMatch(root.value, f) &&
      Syms(root.value) == NonzeroUpTo(f, |f|))
  }

  /** No symbol is counted twice among the nonzero ones. */
  lemma NonzeroNoRepeats(f: seq<int>)
    ensures NoRepeats(NonzeroUpTo(f, |f|))
  {
    NonzeroUpToCount(f, |f|);
  }

  /** The code lengths buildLength leaves for a trie: every symbol of the
      trie gets a length in [1, maxLength], every other symbol 0; longer
      paths never get shorter lengths; bl_counts (counts) adds up to the
      number of symbols; and with no overflow the lengths are the path
      lengths and counts is their histogram. */
  ghost predicate LengthsFor(root: Option<HNode>, length: seq<int>, counts: seq<int>, maxLength: int)
  {
    (root.None? ==>
      (forall s :: 0 <= s < |length| ==> length[s] == 0) && Sum(counts) == 0) &&
    (root.Some? ==>
      var L := Leaves(root.value, 0);
      (forall k :: 0 <= k < |L| ==> 0 <= L[k].symbol < |length| && 1 <= length[L[k].symbol] <= maxLength) &&
      (forall s :: 0 <= s < |length| && s !in Syms(root.value) ==> length[s] == 0) &&
      (forall i, j :: 0 <= i < |L| && 0 <= j < |L| && L[i].depth < L[j].depth ==>
        length[L[i].symbol] <= length[L[j].symbol]) &&
      Sum(counts) == |L| &&
      (Overflow(root.value, 0, maxLength) == 0 ==>
        (forall k :: 0 <= k < |L| ==> length[L[k].symbol] == L[k].depth) &&
        IsHistogram(length, counts)))
  }

  /** Every length buildLength leaves is between 0 and maxLength. */
  lemma LengthsBounded(root: Option<HNode>, length: seq<int>, counts: seq<int>, maxLength: int)
    requires LengthsFor(root, length, counts, maxLength) && maxLength >= 1
    ensures forall s :: 0 <= s < |length| ==> 0 <= length[s] <= maxLength
  {
    forall s | 0 <= s < |length|
      ensures 0 <= length[s] <= maxLength
    {
      if root.Some? && s in Syms(root.value) {
        LeafSymbolIff(root.value, 0, s);
        var k :| 0 <= k < |Leaves(root.value, 0)| && Leaves(root.value, 0)[k].symbol == s;
      }
    }
  }

  /** Without overflow the clamped path lengths are the path lengths. */
  lemma ExactLengths(t: HNode, lens: seq<int>, counts: seq<int>, maxLength: int)
    requires !t.Leaf? && Overflow(t, 0, maxLength) == 0
    requires forall k :: 0 <= k < |Leaves(t, 0)| ==>
      0 <= Leaves(t, 0)[k].symbol < |lens| && lens[Leaves(t, 0)[k].symbol] == Min(Leaves(t, 0)[k].depth, maxLength)
    requires forall s :: 0 <= s < |lens| && s !in Syms(t) ==> lens[s] == 0
    requires IsHistogram(lens, counts) && Sum(counts) == |Leaves(t, 0)|
    ensures LengthsFor(Some(t), lens, counts, maxLength)
  {
    OverflowZeroIff(t, 0, maxLength);
    LeavesDeeper(t, 0);
  }

  /** After the redistribution the lengths handed out in order of path
      length keep the order of path lengths. */
  lemma ReassignedLengths(t: HNode, tree: seq<LeafAt>, sorted: seq<LeafAt>, before: seq<int>, lens: seq<int>,
                          counts: seq<int>, maxLength: int)
    requires !t.Leaf? && Overflow(t, 0, maxLength) != 0 && tree == Leaves(t, 0)
    requires multiset(sorted) == multiset(tree) && SortedByDepth(sorted) && |before| == |lens|
    requires forall k :: 0 <= k < |tree| ==> 0 <= tree[k].symbol < |lens|
    requires forall s :: 0 <= s < |before| && s !in Syms(t) ==> before[s] == 0
    requires forall a :: 0 <= a < |sorted| ==> 0 <= sorted[a].symbol < |lens|
    requires forall a :: 0 <= a < |sorted| ==> 1 <= lens[sorted[a].symbol] <= maxLength
    requires forall a, b :: 0 <= a < b < |sorted| ==> lens[sorted[a].symbol] <= lens[sorted[b].symbol]
    requires forall s :: 0 <= s < |lens| && !HasSymbol(sorted, s) ==> lens[s] == before[s]
    requires Sum(counts) == |tree|
    ensures LengthsFor(Some(t), lens, counts, maxLength)
  {
    forall k | 0 <= k < |tree|
      ensures 1 <= lens[tree[k].symbol] <= maxLength
    {
      assert tree[k] in multiset(sorted);
      var a :| 0 <= a < |sorted| && sorted[a] == tree[k];
    }
    forall s | 0 <= s < |lens| && s !in Syms(t)
      ensures lens[s] == 0
    {
      LeafSymbolIff(t, 0, s);
      PermHasSymbol(sorted, tree, s);
    }
    SortedLengths(tree, sorted, lens);
  }

  /** A permutation holds the same symbols. */
  /** The symbols of one more key. */
  lemma HasSymbolPrefix(ls: seq<LeafAt>, k: int, s: int)
    requires 0 <= k < |ls|
    ensures HasSymbol(ls[..k + 1], s) <==> HasSymbol(ls[..k], s) || ls[k].symbol == s
  {
    if HasSymbol(ls[..k + 1], s) {
      var j :| 0 <= j < k + 1 && ls[..k + 1][j].symbol == s;
      if j < k {
        assert ls[..k][j].symbol == s;
      }
    }
    if HasSymbol(ls[..k], s) {
      var j :| 0 <= j < k && ls[..k][j].symbol == s;
      assert ls[..k + 1][j].symbol == s;
    }
    if ls[k].symbol == s {
      assert ls[..k + 1][k].symbol == s;
    }
  }

  lemma PermHasSymbol(a: seq<LeafAt>, b: seq<LeafAt>, s: int)
    requires multiset(a) == multiset(b)
    ensures HasSymbol(a, s) ==> HasSymbol(b, s)
  {
    if HasSymbol(a, s) {
      var i :| 0 <= i < |a| && a[i].symbol == s;
      assert a[i] in multiset(b);
      var j :| 0 <= j < |b| && b[j] == a[i];
    }
  }

  /** Lengths nondecreasing along the sort order are nondecreasing in
      path length over the original key order. */
  lemma SortedLengths(tree: seq<LeafAt>, sorted: seq<LeafAt>, lens: seq<int>)
    requires multiset(sorted) == multiset(tree) && SortedByDepth(sorted)
    requires forall a :: 0 <= a < |sorted| ==> 0 <= sorted[a].symbol < |lens|
    requires forall i :: 0 <= i < |tree| ==> 0 <= tree[i].symbol < |lens|
    requires forall a, b :: 0 <= a < b < |sorted| ==> lens[sorted[a].symbol] <= lens[sorted[b].symbol]
    ensures forall i, j :: 0 <= i < |tree| && 0 <= j < |tree| && tree[i].depth < tree[j].depth ==>
      lens[tree[i].symbol] <= lens[tree[j].symbol]
  {
    forall i, j | 0 <= i < |tree| && 0 <= j < |tree| && tree[i].depth < tree[j].depth
      ensures lens[tree[i].symbol] <= lens[tree[j].symbol]
    {
      assert tree[i] in multiset(sorted) && tree[j] in multiset(sorted);
      var a :| 0 <= a < |sorted| && sorted[a] == tree[i];
      var b :| 0 <= b < |sorted| && sorted[b] == tree[j];
      assert a < b;
    }
  }

  lemma {:induction false} RepeatSnoc<T>(x: T, k: int)
    requires k >= 0
    ensures Repeat(x, k + 1) == Repeat(x, k) + [x]
    decreases k
  {
    if k > 0 {
      RepeatSnoc(x, k - 1);
    }
  }

  /** Rendering a coding that grows by one token. */
  lemma RenderSnoc(ts: seq<Token>, t: Token, codes: seq<bv16>, lens: seq<int>)
    ensures Render(Emits(ts + [t]), codes, lens) == Render(Emits(ts), codes, lens) + Render(TokenEmits(t), codes, lens)
  {
    EmitsAppend(ts, [t]);
    EmitsSingle(t);
    RenderAppend(Emits(ts), TokenEmits(t), codes, lens);
  }

  /** One more copy of a length written as itself. */
  lemma SymWriteStep(start: seq<Write>, w: seq<Write>, cur: int, k: int, codes: seq<bv16>, lens: seq<int>)
    requires 0 <= cur < |codes| && cur < |lens| && k >= 0
    requires w == start + Render(Emits(Repeat(Sym(cur), k)), codes, lens)
    ensures w + [Bits(codes[cur] as int, lens[cur])] == start + Render(Emits(Repeat(Sym(cur), k + 1)), codes, lens)
  {
    RepeatSnoc(Sym(cur), k);
    RenderSnoc(Repeat(Sym(cur), k), Sym(cur), codes, lens);
    var one := [Bits(codes[cur] as int, lens[cur])];
    assert Render(TokenEmits(Sym(cur)), codes, lens) == one;
    AppendAssoc(start, Render(Emits(Repeat(Sym(cur), k)), codes, lens), one);
  }

  /** A repeat code written as its symbol followed by its extra bits. */
  lemma RepWrite(start: seq<Write>, sym: int, v: int, width: int, t: Token, codes: seq<bv16>, lens: seq<int>)
    requires 0 <= sym < |codes| && sym < |lens| && TokenEmits(t) == [Symbol(sym), Extra(v, width)]
    ensures start + [Bits(codes[sym] as int, lens[sym])] + [Bits(v, width)] == start + Render(Emits([t]), codes, lens)
  {
    var a, b := [Bits(codes[sym] as int, lens[sym])], [Bits(v, width)];
    EmitsSingle(t);
    assert Render([Symbol(sym), Extra(v, width)], codes, lens) == [WriteOf(Symbol(sym), codes, lens)] + Render([Extra(v, width)], codes, lens);
    assert Render([Extra(v, width)], codes, lens) == b;
    AppendAssoc(start, a, b);
  }

  /** The canonical code of a symbol, bit-reversed as buildCodes stores
      it; 0 for a symbol without a code. */
  function StoredCode(lens: seq<int>, counts: seq<int>, i: int): bv16
    requires 0 <= i < |lens| && LensFit(lens, counts)
  {
    if lens[i] > 0 && 0 <= CanonicalCode(lens, counts, i) < 65536 then
      BitReverse(CanonicalCode(lens, counts, i)).value
    else 0
  }

  /** Every length is a valid index into counts. */
  ghost predicate LensFit(lens: seq<int>, counts: seq<int>)
  {
    |counts| <= 16 && forall i :: 0 <= i < |lens| ==> 0 <= lens[i] <= |counts|
  }

  /** Every symbol below n with a length has a canonical code that fits
      16 bits. */
  ghost predicate FitsUpTo(lens: seq<int>, counts: seq<int>, n: int)
    requires LensFit(lens, counts) && 0 <= n <= |lens|
  {
    forall i {:trigger CanonicalCode(lens, counts, i)} :: 0 <= i < n && lens[i] > 0 ==> 0 <= CanonicalCode(lens, counts, i) < 65536
  }

  ghost predicate CodesFit(lens: seq<int>, counts: seq<int>)
    requires LensFit(lens, counts)
  {
    FitsUpTo(lens, counts, |lens|)
  }

  /** cs holds the stored code of every symbol below n, and 0 above. */
  ghost predicate StoredUpTo(cs: seq<bv16>, lens: seq<int>, counts: seq<int>, n: int)
    requires LensFit(lens, counts) && 0 <= n <= |lens| == |cs|
  {
    forall k :: 0 <= k < |cs| ==> cs[k] == if k < n then StoredCode(lens, counts, k) else 0
  }

  lemma FitsStep(lens: seq<int>, counts: seq<int>, i: int)
    requires LensFit(lens, counts) && 0 <= i < |lens| && FitsUpTo(lens, counts, i)
    requires lens[i] > 0 ==> 0 <= CanonicalCode(lens, counts, i) < 65536
    ensures FitsUpTo(lens, counts, i + 1)
  {
  }

  lemma NotFit(lens: seq<int>, counts: seq<int>, i: int)
    requires LensFit(lens, counts) && 0 <= i < |lens| && lens[i] > 0
    requires !(0 <= CanonicalCode(lens, counts, i) < 65536)
    ensures !CodesFit(lens, counts)
  {
  }

  /** nc[b] is the next code of length b + 1 once the symbols below i
      have taken theirs: buildCodes' nextCode array. */
  ghost predicate NextCodes(nc: seq<int>, lens: seq<int>, counts: seq<int>, i: int)
    requires 0 <= i <= |lens| && |nc| <= |counts| <= 16
  {
    forall b :: 0 <= b < |nc| ==> nc[b] == CodeStart(counts, b) + CountLen(lens, i, b + 1) * Pow2(15 - b)
  }

  lemma NextCodesStart(nc: seq<int>, lens: seq<int>, counts: seq<int>)
    requires |nc| <= |counts| <= 16
    requires forall b :: 0 <= b < |nc| ==> nc[b] == CodeStart(counts, b)
    ensures NextCodes(nc, lens, counts, 0)
  {
  }

  /** Symbol i takes the next code of its length, which is its canonical
      code, and the next code of that length moves one step on. */
  lemma NextCodesStep(nc: seq<int>, lens: seq<int>, counts: seq<int>, i: int)
    requires 0 <= i < |lens| && |nc| == |counts| && LensFit(lens, counts)
    requires NextCodes(nc, lens, counts, i)
    ensures lens[i] > 0 ==> nc[lens[i] - 1] == CanonicalCode(lens, counts, i)
    ensures lens[i] > 0 ==> NextCodes(nc[lens[i] - 1 := nc[lens[i] - 1] + Pow2(16 - lens[i])], lens, counts, i + 1)
    ensures lens[i] == 0 ==> NextCodes(nc, lens, counts, i + 1)
  {
    var b := lens[i];
    if b > 0 {
      assert Pow2(15 - (b - 1)) == Pow2(16 - b);
      Distribute(CountLen(lens, i, b), 1, Pow2(16 - b));
    }
  }

  /** Symbol i with a length: bitReverse fails exactly when its canonical
      code does not fit 16 bits; otherwise the code is stored and the next
      code of that length moves on. */
  lemma CodeStep(nc: seq<int>, cs: seq<bv16>, lens: seq<int>, counts: seq<int>, i: int, rev: Result<bv16>)
    requires 0 <= i < |lens| == |cs| && |nc| == |counts| && LensFit(lens, counts) && lens[i] > 0
    requires NextCodes(nc, lens, counts, i) && FitsUpTo(lens, counts, i) && StoredUpTo(cs, lens, counts, i)
    requires rev == BitReverse(nc[lens[i] - 1])
    ensures rev.Fail? ==> !CodesFit(lens, counts) && rev.error == StringIndexOutOfBounds
    ensures rev.Ok? ==> FitsUpTo(lens, counts, i + 1) && StoredUpTo(cs[i := rev.value], lens, counts, i + 1)
    ensures NextCodes(nc[lens[i] - 1 := nc[lens[i] - 1] + Pow2(16 - lens[i])], lens, counts, i + 1)
  {
    NextCodesStep(nc, lens, counts, i);
    if rev.Fail? {
      NotFit(lens, counts, i);
    } else {
      FitsStep(lens, counts, i);
      StoredStep(cs, lens, counts, i, rev.value);
    }
  }

  lemma NoCodeStep(nc: seq<int>, cs: seq<bv16>, lens: seq<int>, counts: seq<int>, i: int)
    requires 0 <= i < |lens| == |cs| && |nc| == |counts| && LensFit(lens, counts) && lens[i] == 0
    requires NextCodes(nc, lens, counts, i) && FitsUpTo(lens, counts, i) && StoredUpTo(cs, lens, counts, i)
    ensures NextCodes(nc, lens, counts, i + 1) && FitsUpTo(lens, counts, i + 1) && StoredUpTo(cs, lens, counts, i + 1)
  {
    NextCodesStep(nc, lens, counts, i);
    FitsStep(lens, counts, i);
    StoredStep(cs, lens, counts, i, cs[i]);
  }

  lemma StoredStep(cs: seq<bv16>, lens: seq<int>, counts: seq<int>, i: int, v: bv16)
    requires LensFit(lens, counts) && 0 <= i < |lens| == |cs|
    requires StoredUpTo(cs, lens, counts, i) && v == StoredCode(lens, counts, i)
    ensures StoredUpTo(cs[i := v], lens, counts, i + 1)
  {
  }

  /** b is base plus the number of times each symbol occurs in es. */
  ghost predicate Tallied(b: seq<int>, base: seq<int>, es: seq<Emit>)
  {
    |b| == |base| && forall s :: 0 <= s < |b| ==> b[s] == base[s] + SymbolCount(es, s)
  }

  /** A pass of calcBLFreq over lens[i..) keeps the tally of the coding
      emitted so far. */
  lemma TalliedStep(b0: seq<int>, b1: seq<int>, base: seq<int>, done: seq<Token>,
                    lens: seq<int>, n: int, i: int, prev: int)
    requires 0 <= i < n <= |lens| && 0 <= lens[i] <= 15
    requires Tallied(b0, base, Emits(done)) && |b1| == |b0|
    requires forall s :: 0 <= s < |b1| ==>
      b1[s] == b0[s] + (if Opens(lens[i], prev) && s == lens[i] then 1 else 0) +
        ClosingCount(lens[i], PassEnd(lens, n, i, prev).1, s)
    ensures Tallied(b1, base, Emits(done + (Head(lens[i], prev) + RunTokens(lens[i], PassEnd(lens, n, i, prev).1))))
  {
    var nextlen := lens[i];
    RunEndFacts(lens, n, i + 1, nextlen, if Opens(nextlen, prev) then 0 else 1, if nextlen == 0 then 138 else 6);
    var pass := Head(nextlen, prev) + RunTokens(nextlen, PassEnd(lens, n, i, prev).1);
    PassCount(done, nextlen, prev, PassEnd(lens, n, i, prev).1);
    assert done + Head(nextlen, prev) + RunTokens(nextlen, PassEnd(lens, n, i, prev).1) == done + pass;
  }

  /** done is what the coding of lens[0..n) emits before position i. */
  ghost predicate ScannedTo(done: seq<Token>, lens: seq<int>, n: int, i: int, curlen: int)
    requires 0 <= i <= n <= |lens|
  {
    Tokens(lens, n) == done + Scan(lens, n, i, curlen)
  }

  lemma ScannedStep(done: seq<Token>, lens: seq<int>, n: int, i0: int, prev: int, i: int, curlen: int, count: int)
    requires 0 <= i0 < n <= |lens| && ScannedTo(done, lens, n, i0, prev)
    requires curlen == lens[i0] && (i, count) == PassEnd(lens, n, i0, prev)
    ensures 0 <= i <= n && ScannedTo(done + (Head(curlen, prev) + RunTokens(curlen, count)), lens, n, i, curlen)
  {
    var pass, rest := Head(curlen, prev) + RunTokens(curlen, count), Scan(lens, n, i, curlen);
    assert Scan(lens, n, i0, prev) == pass + rest by {
      ScanUnfold(lens, n, i0, prev);
    }
    AppendAssoc(done, pass, rest);
  }

  lemma AppendAssoc<T>(a: seq<T>, b: seq<T>, c: seq<T>)
    ensures a + (b + c) == (a + b) + c
  {
  }

  /** w is what base becomes after writing the coding done. */
  ghost predicate WrittenAs(w: seq<Write>, base: seq<Write>, done: seq<Token>, codes: seq<bv16>, lens: seq<int>)
  {
    w == base + Render(Emits(done), codes, lens)
  }

  lemma WrittenStep(w0: seq<Write>, w1: seq<Write>, base: seq<Write>, done: seq<Token>, pass: seq<Token>, codes: seq<bv16>, lens: seq<int>)
    requires WrittenAs(w0, base, done, codes, lens)
    requires w1 == w0 + Render(Emits(pass), codes, lens)
    ensures WrittenAs(w1, base, done + pass, codes, lens)
  {
    EmitsAppend(done, pass);
    RenderAppend(Emits(done), Emits(pass), codes, lens);
    AppendAssoc(base, Render(Emits(done), codes, lens), Render(Emits(pass), codes, lens));
  }

  /** What writeTree writes for one pass, given the opening and closing
      tokens. */
  lemma RenderPass(head: seq<Token>, run: seq<Token>, codes: seq<bv16>, lens: seq<int>)
    ensures Render(Emits(head + run), codes, lens) == Render(Emits(head), codes, lens) + Render(Emits(run), codes, lens)
  {
    EmitsAppend(head, run);
    RenderAppend(Emits(head), Emits(run), codes, lens);
  }

  lemma RenderToken(t: Token, codes: seq<bv16>, lens: seq<int>)
    ensures Render(Emits([t]), codes, lens) == Render(TokenEmits(t), codes, lens)
  {
    EmitsSingle(t);
  }

  /** The first loop of buildCodes: nextCode[bits] is the first code of
      length bits + 1.  The local array nextCode is kept as a sequence. */
  method StartCodes(counts: seq<int>) returns (nextCode: seq<int>)
    requires |counts| <= 16
    ensures |nextCode| == |counts|
    ensures forall lens :: NextCodes(nextCode, lens, counts, 0)
  {
    nextCode := [];
    var code := 0;
    var bits := 0;
    while bits < |counts|
      invariant 0 <= bits <= |counts| && |nextCode| == bits && code == CodeStart(counts, bits)
      invariant forall b :: 0 <= b < bits ==> nextCode[b] == CodeStart(counts, b)
    {
      nextCode := nextCode + [code];
      code := code + counts[bits] * Pow2(15 - bits);
      bits := bits + 1;
    }
    forall lens: seq<int> ensures NextCodes(nextCode, lens, counts, 0) {
      NextCodesStart(nextCode, lens, counts);
    }
  }

  /** The second loop of buildCodes: each symbol with a length takes the
      next code of that length, bit-reversed. */
  method AssignCodes(lens: seq<int>, counts: seq<int>, nextCode0: seq<int>) returns (cs: seq<bv16>, r: Result<()>)
    requires LensFit(lens, counts) && |nextCode0| == |counts| && NextCodes(nextCode0, lens, counts, 0)
    ensures |cs| == |lens|
    ensures r.Ok? <==> CodesFit(lens, counts)
    ensures r.Ok? ==> StoredUpTo(cs, lens, counts, |lens|)
    ensures r.Fail? ==> r.error == StringIndexOutOfBounds
  {
    var nextCode := nextCode0;
    cs := seq(|lens|, _ => 0);
    var i := 0;
    while i < |lens|
      invariant 0 <= i <= |lens| && |nextCode| == |counts|
      invariant NextCodes(nextCode, lens, counts, i)
      invariant |cs| == |lens| && FitsUpTo(lens, counts, i) && StoredUpTo(cs, lens, counts, i)
    {
      var step;
      nextCode, cs, step := AssignCode(nextCode, cs, lens, counts, i);
      if step.Fail? {
        return cs, step;
      }
      i := i + 1;
    }
    r := Ok(());
  }

  /** One pass of the second loop of buildCodes, for symbol i. */
  method AssignCode(nextCode: seq<int>, cs: seq<bv16>, lens: seq<int>, counts: seq<int>, i: int)
    returns (nextCode': seq<int>, cs': seq<bv16>, r: Result<()>)
    requires 0 <= i < |lens| == |cs| && |nextCode| == |counts| && LensFit(lens, counts)
    requires NextCodes(nextCode, lens, counts, i) && FitsUpTo(lens, counts, i) && StoredUpTo(cs, lens, counts, i)
    ensures |nextCode'| == |counts| && |cs'| == |lens|
    ensures r.Fail? ==> !CodesFit(lens, counts) && r.error == StringIndexOutOfBounds
    ensures r.Ok? ==> NextCodes(nextCode', lens, counts, i + 1) && FitsUpTo(lens, counts, i + 1) && StoredUpTo(cs', lens, counts, i + 1)
  {
    var b := lens[i];
    nextCode', cs', r := nextCode, cs, Ok(());
    if b > 0 {
      var rev := BitReverse(nextCode[b - 1]);
      CodeStep(nextCode, cs, lens, counts, i, rev);
      if rev.Fail? {
        return nextCode, cs, Fail(rev.error);
      }
      cs' := cs[i := rev.value];
      nextCode' := nextCode[b - 1 := nextCode[b - 1] + Pow2(16 - b)];
    } else {
      NoCodeStep(nextCode, cs, lens, counts, i);
    }
  }

  class Tree {
    const freqs: array<int>
    const blCounts: array<int>
    /** The codes of the symbols; [] stands for null. */
    var codes: seq<bv16>
    /** The code lengths of the symbols; [] stands for null. */
    var length: seq<int>
    const minNumCodes: int
    var numCodes: int
    const maxLength: int
    /** The trie (HashTrieMap.root); None when empty. */
    var root: Option<HNode>
    /** The compressor's bit sink, which the inner class writes to. */
    const pending: DeflaterPending

    ghost predicate Valid()
      reads this
    {
      freqs != blCounts && blCounts.Length == maxLength && 2 <= maxLength <= 15 &&
      freqs.Length >= 1 && minNumCodes >= 1
    }

    constructor (elems: int, minCodes: int, maxLength: int, pending: DeflaterPending)
      requires elems >= 1 && minCodes >= 1 && 2 <= maxLength <= 15
      ensures Valid() && fresh(freqs) && fresh(blCounts)
      ensures freqs.Length == elems && minNumCodes == minCodes && this.maxLength == maxLength
      ensures this.pending == pending && codes == [] && length == [] && root == None
      ensures forall s :: 0 <= s < elems ==> freqs[s] == 0
    {
      this.minNumCodes := minCodes;
      this.maxLength := maxLength;
      this.pending := pending;
      freqs := new int[elems](_ => 0);
      blCounts := new int[maxLength](_ => 0);
      codes := [];
      length := [];
      numCodes := 0;
      root := None;
    }

    /** reset(): all frequencies 0, codes and lengths dropped. */
    method Reset()
      requires Valid()
      modifies this, freqs
      ensures Valid() && numCodes == old(numCodes) && root == old(root)
      ensures forall s :: 0 <= s < freqs.Length ==> freqs[s] == 0
      ensures codes == [] && length == []
    {
      var i := 0;
      while i < freqs.Length
        modifies freqs
        invariant 0 <= i <= freqs.Length
        invariant forall s :: 0 <= s < i ==> freqs[s] == 0
      {
        freqs[i] := 0;
        i := i + 1;
      }
      codes := [];
      length := [];
    }

    /** writeSymbol(code): the code of the symbol in its length. */
    method WriteSymbol(code: int)
      requires 0 <= code < |codes| && code < |length|
      modifies pending
      ensures pending.writes == old(pending.writes) + [Bits(codes[code] as int, length[code])]
    {
      pending.WriteBits(codes[code] as int, length[code]);
    }

    method SetStaticCodes(stCodes: seq<bv16>, stLength: seq<int>)
      modifies this
      ensures codes == stCodes && length == stLength
      ensures numCodes == old(numCodes) && root == old(root)
    {
      codes := stCodes;
      length := stLength;
    }

    // -------------------------------------------------------------------
    // buildTree and buildLength.

    /** The trie buildTree leaves: its leaves are the symbols of nonzero
        frequency, each once, with their frequencies; it is None exactly
        when there are none. */
    ghost predicate TreeBuilt()
      reads this, freqs
    {
      TrieFor(root, freqs[..])
    }

    /** The code lengths buildLength leaves (see LengthsFor). */
    ghost predicate LengthsBuilt()
      reads this, blCounts
    {
      |length| == freqs.Length && LengthsFor(root, length, blCounts[..], maxLength)
    }

    /** buildTree(): combines the two lightest trees until one is left,
        then buildLength(). */
    method BuildTree() returns (r: Result<()>)
      requires Valid()
      modifies this, blCounts
      ensures Valid() && codes == old(codes)
      ensures TreeBuilt()
      ensures CodesCover(freqs[..], numCodes, minNumCodes)
      ensures r.Ok? ==> LengthsBuilt()
      ensures r.Fail? ==> r.error == ArrayIndexOutOfBounds && root.Some? && Overflow(root.value, 0, maxLength) > 0
    {
      MakeTrie();
      ghost var f := freqs[..];
      r := BuildLength();
      SameFreqs(f);
    }

    /** buildTree() up to its call of buildLength(). */
    method MakeTrie()
      requires Valid()
      modifies this
      ensures Valid() && codes == old(codes)
      ensures TrieFor(root, freqs[..])
      ensures CodesCover(freqs[..], numCodes, minNumCodes)
    {
      ghost var f := freqs[..];
      var q, maxCode := CollectLeaves();
      if |q| == 1 {
        var only := q[0];
        q := [Lone(only)];
      }
      StartQueueFacts(f);
      numCodes := Max(maxCode + 1, minNumCodes);
      NumCodesBound(f, maxCode, minNumCodes);
      q := Combine(q, f);
      TrieOfQueue(q, f);
      root := if |q| > 0 then Some(q[0]) else None;
      SameFreqs(f);
    }

    /** Nothing buildTree does changes the frequencies. */
    lemma SameFreqs(f: seq<int>)
      requires |f| == freqs.Length && forall k :: 0 <= k < |f| ==> freqs[k] == f[k]
      ensures freqs[..] == f
    {
    }

    /** The first loop of buildTree: a leaf for every symbol of nonzero
        frequency, in symbol order, and the last such symbol (0 if none). */
    method CollectLeaves() returns (q: seq<HNode>, maxCode: int)
      requires Valid()
      ensures q == LeafQueue(freqs[..], freqs.Length)
      ensures 0 <= maxCode < freqs.Length
      ensures forall s :: maxCode < s < freqs.Length ==> freqs[..][s] == 0
      ensures maxCode == 0 || freqs[..][maxCode] != 0
    {
      q := [];
      maxCode := 0;
      ghost var f := freqs[..];
      var n := 0;
      while n < freqs.Length
        invariant 0 <= n <= freqs.Length && 0 <= maxCode < freqs.Length
        invariant q == LeafQueue(f, n)
        invariant forall s :: maxCode < s < n ==> f[s] == 0
        invariant maxCode == 0 || f[maxCode] != 0
      {
        var freq := freqs[n];
        assert freq == f[n];
        assert LeafQueue(f, n + 1) == LeafQueue(f, n) + (if freq != 0 then [Leaf(n, freq)] else []);
        if freq != 0 {
          q := q + [Leaf(n, freq)];
          maxCode := n;
        }
        n := n + 1;
      }
    }

    /** The second loop of buildTree: the two lightest trees become the
        children of a new node until at most one tree is left. */
    method Combine(q0: seq<HNode>, ghost f: seq<int>) returns (q: seq<HNode>)
      requires forall k :: 0 <= k < |q0| ==> FreqsMatch(q0[k], f)
      requires |q0| == 1 ==> !q0[0].Leaf?
      ensures |q| <= 1 && (|q| == 0 <==> |q0| == 0)
      ensures QSyms(q) == QSyms(q0)
      ensures forall k :: 0 <= k < |q| ==> FreqsMatch(q[k], f)
      ensures |q| == 1 ==> !q[0].Leaf?
    {
      q := q0;
      while |q| > 1
        invariant QSyms(q) == QSyms(q0) && (|q| == 0 <==> |q0| == 0)
        invariant forall k :: 0 <= k < |q| ==> FreqsMatch(q[k], f)
        invariant |q| == 1 ==> !q[0].Leaf?
        decreases |q|
      {
        var (a, rest) := RemoveMin(q);
        var (b, rest2) := RemoveMin(rest);
        PairStep(q, a, rest, b, rest2, f);
        q := rest2 + [Pair(a, b)];
      }
    }

    /** buildLength(): the path length of each symbol, clamped to
        maxLength, and bl_counts; when paths were too long, bl_counts is
        redistributed and the lengths handed out again in order of path
        length.  The redistribution can run off either end of bl_counts
        (ArrayIndexOutOfBoundsException). */
    method BuildLength() returns (r: Result<()>)
      requires Valid() && TreeBuilt()
      modifies this, blCounts
      ensures Valid() && root == old(root) && codes == old(codes) && numCodes == old(numCodes)
      ensures forall k :: 0 <= k < freqs.Length ==> freqs[k] == old(freqs[k])
      ensures r.Ok? ==> LengthsBuilt()
      ensures r.Fail? ==> r.error == ArrayIndexOutOfBounds && root.Some? && Overflow(root.value, 0, maxLength) > 0
    {
      var len, tree := CountedLengths();
      var overflow := if root.Some? then Overflow(root.value, 0, maxLength) else 0;
      if overflow != 0 {
        r := Reassign(tree, len);
        length := len[..];
      } else {
        r := Ok(());
        length := len[..];
        if root.Some? {
          ExactLengths(root.value, length, blCounts[..], maxLength);
        }
      }
    }

    /** buildLength up to the overflow test: the path lengths, clamped to
        maxLength, and their histogram in bl_counts. */
    method CountedLengths() returns (len: array<int>, tree: seq<LeafAt>)
      requires Valid() && TreeBuilt()
      modifies blCounts
      ensures fresh(len) && len.Length == freqs.Length
      ensures tree == if root.Some? then Leaves(root.value, 0) else []
      ensures DistinctSymbols(tree) && forall k :: 0 <= k < |tree| ==> 0 <= tree[k].symbol < len.Length
      ensures forall k :: 0 <= k < |tree| ==> len[tree[k].symbol] == Min(tree[k].depth, maxLength)
      ensures root.Some? ==> forall s :: 0 <= s < len.Length && s !in Syms(root.value) ==> len[s] == 0
      ensures root.None? ==> forall s :: 0 <= s < len.Length ==> len[s] == 0
      ensures IsHistogram(len[..], blCounts[..]) && NonNegative(blCounts[..]) && Sum(blCounts[..]) == |tree|
    {
      len := new int[freqs.Length](_ => 0);
      ClearCounts();
      tree := if root.Some? then Leaves(root.value, 0) else [];
      if root.Some? {
        NonzeroNoRepeats(freqs[..]);
        LeavesDistinct(root.value, 0);
        LeavesInRange(root.value, 0, freqs[..]);
        LeavesDeeper(root.value, 0);
      }
      CountLeaves(tree, len);
      if root.Some? {
        forall s | 0 <= s < len.Length && s !in Syms(root.value)
          ensures len[s] == 0
        {
          LeafSymbolIff(root.value, 0, s);
        }
      }
    }

    /** buildLength when paths were too long: bl_counts redistributed and
        the lengths handed out again in order of path length. */
    method Reassign(tree: seq<LeafAt>, len: array<int>) returns (r: Result<()>)
      requires Valid() && root.Some? && tree == Leaves(root.value, 0) && Overflow(root.value, 0, maxLength) != 0
      requires len.Length == freqs.Length && len != blCounts
      requires DistinctSymbols(tree) && forall k :: 0 <= k < |tree| ==> 0 <= tree[k].symbol < len.Length
      requires forall s :: 0 <= s < len.Length && s !in Syms(root.value) ==> len[s] == 0
      requires NonNegative(blCounts[..]) && Sum(blCounts[..]) == |tree|
      modifies len, blCounts
      ensures r.Ok? ==> LengthsFor(root, len[..], blCounts[..], maxLength)
      ensures r.Fail? ==> r.error == ArrayIndexOutOfBounds
    {
      ghost var counted := len[..];
      r := Redistribute(Overflow(root.value, 0, maxLength));
      if r.Fail? {
        return;
      }
      var sorted := SortByDepth(tree);
      SortDistinct(tree);
      forall a | 0 <= a < |sorted|
        ensures 0 <= sorted[a].symbol < len.Length
      {
        assert sorted[a] in multiset(tree);
      }
      r := AssignSorted(sorted, len);
      if r.Ok? {
        ReassignedLengths(root.value, tree, sorted, counted, len[..], blCounts[..], maxLength);
      }
    }

    /** The first loop of buildLength: bl_counts all 0. */
    method ClearCounts()
      requires Valid()
      modifies blCounts
      ensures forall b :: 0 <= b < blCounts.Length ==> blCounts[b] == 0
    {
      var i := 0;
      while i < maxLength
        invariant 0 <= i <= maxLength
        invariant forall b :: 0 <= b < i ==> blCounts[b] == 0
      {
        blCounts[i] := 0;
        i := i + 1;
      }
    }

    /** The loop over the keys of the trie: each symbol's length is its
        path length, clamped to maxLength, and bl_counts counts them. */
    method CountLeaves(tree: seq<LeafAt>, len: array<int>)
      requires Valid() && len.Length == freqs.Length && len != blCounts
      requires DistinctSymbols(tree)
      requires forall k :: 0 <= k < |tree| ==> 0 <= tree[k].symbol < len.Length && tree[k].depth >= 1
      requires forall s :: 0 <= s < len.Length ==> len[s] == 0
      requires forall b :: 0 <= b < blCounts.Length ==> blCounts[b] == 0
      modifies len, blCounts
      ensures forall k :: 0 <= k < |tree| ==> len[tree[k].symbol] == Min(tree[k].depth, maxLength)
      ensures forall s :: 0 <= s < len.Length && !HasSymbol(tree, s) ==> len[s] == 0
      ensures IsHistogram(len[..], blCounts[..]) && NonNegative(blCounts[..])
      ensures Sum(blCounts[..]) == |tree|
    {
      SumZero(blCounts[..]);
      forall b | 0 <= b < blCounts.Length
        ensures blCounts[b] == CountLen(len[..], len.Length, b + 1)
      {
        CountLenZero(len[..], len.Length, b + 1);
      }
      var k := 0;
      while k < |tree|
        invariant 0 <= k <= |tree|
        invariant forall j :: 0 <= j < k ==> len[tree[j].symbol] == Min(tree[j].depth, maxLength)
        invariant forall s :: 0 <= s < len.Length && !HasSymbol(tree[..k], s) ==> len[s] == 0
        invariant forall b :: 0 <= b < blCounts.Length ==> blCounts[b] == CountLen(len[..], len.Length, b + 1)
        invariant NonNegative(blCounts[..])
        invariant Sum(blCounts[..]) == k
      {
        var size := Min(tree[k].depth, maxLength);
        var sym := tree[k].symbol;
        assert len[sym] == 0;
        ghost var before := len[..];
        AddCount(size - 1, 1);
        len[sym] := size;
        assert len[..] == before[sym := size];
        forall b | 0 <= b < blCounts.Length
          ensures blCounts[b] == CountLen(len[..], len.Length, b + 1)
        {
          CountLenUpdate(before, len.Length, sym, size, b + 1);
        }
        forall s | 0 <= s < len.Length && !HasSymbol(tree[..k + 1], s)
          ensures len[s] == 0
        {
          HasSymbolPrefix(tree, k, s);
        }
        k := k + 1;
      }
      assert tree[..k] == tree;
    }

    /** The redistribution of bl_counts when paths were too long: moves
        counts to longer lengths until the overflow is used up, never
        changing their total. */
    method Redistribute(overflow: int) returns (r: Result<()>)
      requires Valid() && overflow > 0 && NonNegative(blCounts[..])
      modifies blCounts
      ensures r.Ok? ==> Sum(blCounts[..]) == old(Sum(blCounts[..]))
      ensures r.Fail? ==> r.error == ArrayIndexOutOfBounds
    {
      var ov := overflow;
      var incrBitLen := maxLength - 1;
      ghost var total := Sum(blCounts[..]);
      while true
        invariant 0 <= incrBitLen <= maxLength - 1 && ov > 0
        invariant NonNegative(blCounts[..]) && Sum(blCounts[..]) == total
        decreases ov
      {
        incrBitLen := incrBitLen - 1;
        if incrBitLen < 0 {
          return Fail(ArrayIndexOutOfBounds);
        }
        while blCounts[incrBitLen] == 0
          invariant 0 <= incrBitLen < maxLength - 1
          decreases incrBitLen
        {
          incrBitLen := incrBitLen - 1;
          if incrBitLen < 0 {
            return Fail(ArrayIndexOutOfBounds);
          }
        }
        ghost var ov0 := ov;
        while true
          invariant 0 <= incrBitLen < maxLength - 1 && blCounts[incrBitLen] >= 1
          invariant NonNegative(blCounts[..]) && Sum(blCounts[..]) == total
          invariant ov <= ov0
          decreases maxLength - incrBitLen
        {
          AddCount(incrBitLen, -1);
          incrBitLen := incrBitLen + 1;
          AddCount(incrBitLen, 1);
          ov := ov - Pow2(maxLength - 1 - incrBitLen);
          if !(ov > 0 && incrBitLen < maxLength - 1) {
            break;
          }
        }
        if !(ov > 0) {
          break;
        }
      }
      AddCount(maxLength - 1, ov);
      AddCount(maxLength - 2, -ov);
      r := Ok(());
    }

    /** bl_counts[b] += delta. */
    method AddCount(b: int, delta: int)
      requires 0 <= b < blCounts.Length
      modifies blCounts
      ensures blCounts[..] == old(blCounts[..])[b := old(blCounts[b]) + delta]
      ensures Sum(blCounts[..]) == old(Sum(blCounts[..])) + delta
      ensures old(NonNegative(blCounts[..])) && blCounts[b] >= 0 ==> NonNegative(blCounts[..])
    {
      SumUpdate(blCounts[..], b, blCounts[b] + delta);
      blCounts[b] := blCounts[b] + delta;
    }

    /** The last loop of buildLength: walks the keys in order of path
        length, handing out bl_counts[0] lengths of 1, then bl_counts[1]
        of 2, and so on. */
    method AssignSorted(sorted: seq<LeafAt>, len: array<int>) returns (r: Result<()>)
      requires Valid() && len.Length == freqs.Length && len != blCounts
      requires DistinctSymbols(sorted)
      requires forall a :: 0 <= a < |sorted| ==> 0 <= sorted[a].symbol < len.Length
      modifies len
      ensures r.Ok? ==> forall a :: 0 <= a < |sorted| ==> 1 <= len[sorted[a].symbol] <= maxLength
      ensures r.Ok? ==> forall a, b :: 0 <= a < b < |sorted| ==> len[sorted[a].symbol] <= len[sorted[b].symbol]
      ensures forall s :: 0 <= s < len.Length && !HasSymbol(sorted, s) ==> len[s] == old(len[s])
      ensures r.Fail? ==> r.error == ArrayIndexOutOfBounds
    {
      var pointer := -1;
      var remaining := 0;
      var k := 0;
      while k < |sorted|
        invariant 0 <= k <= |sorted| && -1 <= pointer < maxLength
        invariant k == 0 ==> remaining == 0
        invariant (k > 0 || remaining != 0) ==> pointer >= 0
        invariant forall a :: 0 <= a < k ==> 1 <= len[sorted[a].symbol] <= pointer + 1
        invariant forall a, b :: 0 <= a < b < k ==> len[sorted[a].symbol] <= len[sorted[b].symbol]
        invariant forall s :: 0 <= s < len.Length && !HasSymbol(sorted, s) ==> len[s] == old(len[s])
      {
        var step;
        pointer, remaining, step := NextLength(pointer, remaining);
        if step.Fail? {
          return step;
        }
        PutLength(len, sorted, k, pointer + 1);
        remaining := remaining - 1;
        k := k + 1;
      }
      r := Ok(());
    }


    /** len[sorted[k].symbol] = v, which leaves the lengths of the other
        leaves alone since their symbols differ. */
    static method PutLength(len: array<int>, sorted: seq<LeafAt>, k: int, v: int)
      requires DistinctSymbols(sorted) && 0 <= k < |sorted|
      requires forall a :: 0 <= a < |sorted| ==> 0 <= sorted[a].symbol < len.Length
      modifies len
      ensures len[sorted[k].symbol] == v
      ensures forall a :: 0 <= a < |sorted| && a != k ==> len[sorted[a].symbol] == old(len[sorted[a].symbol])
      ensures forall s :: 0 <= s < len.Length && !HasSymbol(sorted, s) ==> len[s] == old(len[s])
    {
      len[sorted[k].symbol] := v;
    }

    /** The inner loop of the third loop of buildLength: while no leaves
        of the current length remain, move on to the next length that has
        some; running past maxLength indexes blCounts out of bounds. */
    method NextLength(pointer: int, remaining: int) returns (pointer': int, remaining': int, r: Result<()>)
      requires Valid() && -1 <= pointer < maxLength && (remaining != 0 ==> pointer >= 0)
      ensures r.Ok? ==> pointer <= pointer' < maxLength && 0 <= pointer' && remaining' != 0
      ensures r.Ok? && remaining != 0 ==> pointer' == pointer && remaining' == remaining
      ensures r.Ok? && remaining == 0 ==> pointer < pointer' && remaining' == blCounts[pointer']
      ensures remaining == 0 ==> forall p :: pointer < p < (if r.Ok? then pointer' else maxLength) ==> blCounts[p] == 0
      ensures r.Fail? ==> remaining == 0 && r.error == ArrayIndexOutOfBounds
    {
      pointer', remaining', r := pointer, remaining, Ok(());
      while remaining' == 0
        invariant pointer <= pointer' < maxLength && (remaining == 0 || (pointer' == pointer && remaining' == remaining))
        invariant remaining == 0 && remaining' != 0 ==> pointer < pointer' && remaining' == blCounts[pointer']
        invariant remaining == 0 ==> forall p :: pointer < p < pointer' ==> blCounts[p] == 0
        invariant remaining == 0 && pointer' > pointer ==> blCounts[pointer'] == remaining'
        decreases maxLength - pointer'
      {
        pointer' := pointer' + 1;
        if pointer' >= maxLength {
          return pointer', remaining', Fail(ArrayIndexOutOfBounds);
        }
        remaining' := blCounts[pointer'];
      }
    }

    // -------------------------------------------------------------------
    // buildCodes, getEncodedLength, calcBLFreq and writeTree.

    /** buildCodes(): the canonical code of every symbol with a length,
        bit-reversed; bitReverse throws for a code beyond 16 bits. */
    method BuildCodes() returns (r: Result<()>)
      requires Valid() && |length| == freqs.Length
      requires LensFit(length, blCounts[..])
      modifies this
      ensures Valid() && length == old(length) && root == old(root) && numCodes == old(numCodes)
      ensures |codes| == freqs.Length
      ensures r.Ok? <==> CodesFit(length, blCounts[..])
      ensures r.Ok? ==> forall i :: 0 <= i < |length| ==> codes[i] == StoredCode(length, blCounts[..], i)
      ensures r.Fail? ==> r.error == StringIndexOutOfBounds
    {
      var nextCode := StartCodes(blCounts[..]);
      codes, r := AssignCodes(length, blCounts[..], nextCode);
    }

    /** getEncodedLength(): the bits the counted symbols take with the
        current lengths. */
    method GetEncodedLength() returns (len: int)
      requires |length| >= freqs.Length
      ensures len == EncodedLength(freqs[..], length, freqs.Length)
    {
      len := 0;
      var i := 0;
      while i < freqs.Length
        invariant 0 <= i <= freqs.Length
        invariant len == EncodedLength(freqs[..], length, i)
      {
        len := len + freqs[i] * length[i];
        i := i + 1;
      }
    }

    /** The inner loop of calcBLFreq and writeTree: from i it walks the
        run of curlen and stops at its end or once the count reaches
        maxCount. */
    method RunLength(i0: int, count0: int, curlen: int, maxCount: int) returns (count: int, i: int)
      requires 0 <= i0 <= numCodes <= |length| && 0 <= count0 < maxCount
      ensures (i, count) == RunEnd(length, numCodes, i0, curlen, count0, maxCount)
      ensures count0 <= count
    {
      count, i := count0, i0;
      while i < numCodes && curlen == length[i]
        invariant i0 <= i <= numCodes && count0 <= count < maxCount
        invariant RunEnd(length, numCodes, i, curlen, count, maxCount) == RunEnd(length, numCodes, i0, curlen, count0, maxCount)
        decreases numCodes - i
      {
        i := i + 1;
        count := count + 1;
        if count >= maxCount {
          break;
        }
      }
    }

    /** calcBLFreq(blTree): counts in blTree every symbol writeTree would
        write for length[0..numCodes). */
    method CalcBLFreq(blTree: Tree)
      requires 0 <= numCodes <= |length| && LengthsInRange(length, numCodes)
      requires blTree.freqs.Length > REP_11_138
      modifies blTree.freqs
      ensures forall s :: 0 <= s < blTree.freqs.Length ==>
        blTree.freqs[s] == old(blTree.freqs[s]) + SymbolCount(Emits(Tokens(length, numCodes)), s)
    {
      var bf := blTree.freqs;
      ghost var base := bf[..];
      ghost var done: seq<Token> := [];
      var curlen := -1;
      var i := 0;
      while i < numCodes
        invariant 0 <= i <= numCodes && -1 <= curlen <= 15
        invariant ScannedTo(done, length, numCodes, i, curlen)
        invariant Tallied(bf[..], base, Emits(done))
        decreases numCodes - i
      {
        ghost var i0, prev, b0 := i, curlen, bf[..];
        ghost var count := PassEnd(length, numCodes, i, curlen).1;
        i, curlen := CountPass(bf, i, curlen);
        ScannedStep(done, length, numCodes, i0, prev, i, curlen, count);
        TalliedStep(b0, bf[..], base, done, length, numCodes, i0, prev);
        done := done + (Head(curlen, prev) + RunTokens(curlen, count));
      }
      assert done == Tokens(length, numCodes);
    }

    /** writeTree(blTree): writes, with blTree's codes, the run-length
        coding of length[0..numCodes) that calcBLFreq counted. */
    method WriteTree(blTree: Tree)
      requires blTree.pending == pending
      requires 0 <= numCodes <= |length| && LengthsInRange(length, numCodes)
      requires REP_11_138 < |blTree.codes| && REP_11_138 < |blTree.length|
      modifies pending
      ensures pending.writes == old(pending.writes) + Render(Emits(Tokens(length, numCodes)), blTree.codes, blTree.length)
    {
      ghost var base := pending.writes;
      ghost var done: seq<Token> := [];
      var curlen := -1;
      var i := 0;
      while i < numCodes
        invariant 0 <= i <= numCodes && -1 <= curlen <= 15
        invariant ScannedTo(done, length, numCodes, i, curlen)
        invariant WrittenAs(pending.writes, base, done, blTree.codes, blTree.length)
        decreases numCodes - i
      {
        ghost var i0, prev, w0 := i, curlen, pending.writes;
        ghost var count := PassEnd(length, numCodes, i, curlen).1;
        i, curlen := WritePass(blTree, i, curlen);
        ScannedStep(done, length, numCodes, i0, prev, i, curlen, count);
        ghost var pass := Head(curlen, prev) + RunTokens(curlen, count);
        WrittenStep(w0, pending.writes, base, done, pass, blTree.codes, blTree.length);
        done := done + pass;
      }
      assert done == Tokens(length, numCodes);
    }

    /** One pass of writeTree's outer loop. */
    method WritePass(blTree: Tree, i0: int, prev: int) returns (i: int, curlen: int)
      requires blTree.pending == pending
      requires 0 <= i0 < numCodes <= |length| && LengthsInRange(length, numCodes)
      requires REP_11_138 < |blTree.codes| && REP_11_138 < |blTree.length|
      modifies pending
      ensures curlen == length[i0] && i == PassEnd(length, numCodes, i0, prev).0
      ensures pending.writes == old(pending.writes) +
        Render(Emits(Head(curlen, prev) + RunTokens(curlen, PassEnd(length, numCodes, i0, prev).1)), blTree.codes, blTree.length)
    {
      i := i0;
      curlen := prev;
      var count := 1;
      var nextlen := length[i];
      var maxCount;
      if nextlen == 0 {
        maxCount := 138;
      } else {
        maxCount := 6;
        if curlen != nextlen {
          blTree.WriteSymbol(nextlen);
          RenderToken(Sym(nextlen), blTree.codes, blTree.length);
          assert Render(TokenEmits(Sym(nextlen)), blTree.codes, blTree.length) == [Bits(blTree.codes[nextlen] as int, blTree.length[nextlen])];
          count := 0;
        }
      }
      ghost var head := Head(nextlen, prev);
      ghost var mid := pending.writes;
      assert mid == old(pending.writes) + Render(Emits(head), blTree.codes, blTree.length);
      curlen := nextlen;
      i := i + 1;
      count, i := RunLength(i, count, curlen, maxCount);
      WriteClosing(blTree, curlen, count);
      ghost var run := RunTokens(curlen, count);
      RenderPass(head, run, blTree.codes, blTree.length);
      AppendAssoc(old(pending.writes), Render(Emits(head), blTree.codes, blTree.length), Render(Emits(run), blTree.codes, blTree.length));
    }

    /** The end of a pass: count more copies of curlen, written as
        themselves when fewer than min_count (3), else as a repeat code
        with its extra bits. */
    method WriteClosing(blTree: Tree, curlen: int, count: int)
      requires blTree.pending == pending && 0 <= curlen <= 15 && count >= 0
      requires REP_11_138 < |blTree.codes| && REP_11_138 < |blTree.length|
      modifies pending
      ensures pending.writes == old(pending.writes) + Render(Emits(RunTokens(curlen, count)), blTree.codes, blTree.length)
    {
      var minCount := 3;
      ghost var bc, bl := blTree.codes, blTree.length;
      ghost var start := pending.writes;
      if count < minCount {
        var c := count;
        while c > 0
          invariant 0 <= c <= count
          invariant pending.writes == start + Render(Emits(Repeat(Sym(curlen), count - c)), bc, bl)
        {
          SymWriteStep(start, pending.writes, curlen, count - c, bc, bl);
          blTree.WriteSymbol(curlen);
          c := c - 1;
        }
      } else if curlen != 0 {
        blTree.WriteSymbol(REP_3_6);
        pending.WriteBits(count - 3, 2);
        RepWrite(start, REP_3_6, count - 3, 2, Rep16(count), bc, bl);
      } else if count <= 10 {
        blTree.WriteSymbol(REP_3_10);
        pending.WriteBits(count - 3, 3);
        RepWrite(start, REP_3_10, count - 3, 3, Rep17(count), bc, bl);
      } else {
        blTree.WriteSymbol(REP_11_138);
        pending.WriteBits(count - 11, 7);
        RepWrite(start, REP_11_138, count - 11, 7, Rep18(count), bc, bl);
      }
    }

    /** One pass of calcBLFreq's outer loop: the opening symbol, if any,
        and the symbol or repeat code that closes the run. */
    method CountPass(bf: array<int>, i0: int, prev: int) returns (i: int, curlen: int)
      requires 0 <= i0 < numCodes <= |length| && LengthsInRange(length, numCodes)
      requires bf.Length > REP_11_138
      modifies bf
      ensures curlen == length[i0] && i == PassEnd(length, numCodes, i0, prev).0
      ensures forall s :: 0 <= s < bf.Length ==>
        bf[s] == old(bf[s]) + (if Opens(curlen, prev) && s == curlen then 1 else 0) +
          ClosingCount(curlen, PassEnd(length, numCodes, i0, prev).1, s)
    {
      i := i0;
      curlen := prev;
      var count := 1;
      var nextlen := length[i];
      var maxCount, minCount;
      if nextlen == 0 {
        maxCount, minCount := 138, 3;
      } else {
        maxCount, minCount := 6, 3;
        if curlen != nextlen {
          bf[nextlen] := bf[nextlen] + 1;
          count := 0;
        }
      }
      curlen := nextlen;
      i := i + 1;
      count, i := RunLength(i, count, curlen, maxCount);
      if count < minCount {
        bf[curlen] := bf[curlen] + count;
      } else if curlen != 0 {
        bf[REP_3_6] := bf[REP_3_6] + 1;
      } else if count <= 10 {
        bf[REP_3_10] := bf[REP_3_10] + 1;
      } else {
        bf[REP_11_138] := bf[REP_11_138] + 1;
      }
    }

  }
}
