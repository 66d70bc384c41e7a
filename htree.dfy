/** The Huffman trie that HuffmanCompressor.Tree keeps (a HashTrieMap from
    bit-string paths to symbols), as a datatype.  A node built by
    Node(zero, one) has one or two children; the constructor for a single
    symbol, Node(null, real), leaves the zero branch empty. */
module HuffTree {

  datatype HNode =
    | Leaf(symbol: int, freq: int)
    | Pair(zero: HNode, one: HNode)
    /** Node(null, one): only the one branch is present. */
    | Lone(one: HNode)

  /** Node.freq: the sum of the frequencies below. */
  function Weight(t: HNode): int
  {
    match t
    case Leaf(_, f) => f
    case Pair(z, o) => Weight(z) + Weight(o)
    case Lone(o) => Weight(o)
  }

  /** getOverflow(height, node): the number of inner nodes whose children
      lie deeper than maxLength.  Every inner node has a one branch. */
  function Overflow(t: HNode, height: int, maxLength: int): nat
  {
    match t
    case Leaf(_, _) => 0
    case Pair(z, o) =>
      (if height + 1 > maxLength then 1 else 0) +
      Overflow(z, height + 1, maxLength) + Overflow(o, height + 1, maxLength)
    case Lone(o) =>
      (if height + 1 > maxLength then 1 else 0) + Overflow(o, height + 1, maxLength)
  }

  /** A key of the trie: the symbol and the length of its path. */
  datatype LeafAt = LeafAt(symbol: int, depth: int)

  /** The keys in trie order, the zero branch before the one branch. */
  function Leaves(t: HNode, depth: int): (r: seq<LeafAt>)
    ensures |r| >= 1
  {
    match t
    case Leaf(s, _) => [LeafAt(s, depth)]
    case Pair(z, o) => Leaves(z, depth + 1) + Leaves(o, depth + 1)
    case Lone(o) => Leaves(o, depth + 1)
  }

  /** The symbols held by the trie. */
  function Syms(t: HNode): multiset<int>
  {
    match t
    case Leaf(s, _) => multiset{s}
    case Pair(z, o) => Syms(z) + Syms(o)
    case Lone(o) => Syms(o)
  }

  function SymbolsOf(ls: seq<LeafAt>): (r: seq<int>)
    ensures |r| == |ls|
    ensures forall k :: 0 <= k < |ls| ==> r[k] == ls[k].symbol
  {
    if |ls| == 0 then [] else [ls[0].symbol] + SymbolsOf(ls[1..])
  }

  lemma {:induction false} SymbolsOfAppend(a: seq<LeafAt>, b: seq<LeafAt>)
    ensures SymbolsOf(a + b) == SymbolsOf(a) + SymbolsOf(b)
  {
  }

  lemma {:induction false} LeavesHoldSyms(t: HNode, depth: int)
    ensures multiset(SymbolsOf(Leaves(t, depth))) == Syms(t)
    decreases t
  {
    match t
    case Leaf(_, _) =>
    case Pair(z, o) =>
      var lz, lo := Leaves(z, depth + 1), Leaves(o, depth + 1);
      LeavesHoldSyms(z, depth + 1);
      LeavesHoldSyms(o, depth + 1);
      var sz, so := SymbolsOf(lz), SymbolsOf(lo);
      assert SymbolsOf(Leaves(t, depth)) == sz + so by {
        SymbolsOfAppend(lz, lo);
      }
      assert multiset(sz + so) == multiset(sz) + multiset(so);
    case Lone(o) =>
      LeavesHoldSyms(o, depth + 1);
  }

  ghost predicate DepthsBelow(ls: seq<LeafAt>, maxLength: int)
  {
    forall k :: 0 <= k < |ls| ==> ls[k].depth <= maxLength
  }

  /** Every key under a node at the given height is deeper than it. */
  lemma {:induction false} LeavesDeeper(t: HNode, depth: int)
    ensures forall k :: 0 <= k < |Leaves(t, depth)| ==> Leaves(t, depth)[k].depth >= depth
    ensures !t.Leaf? ==> forall k :: 0 <= k < |Leaves(t, depth)| ==> Leaves(t, depth)[k].depth > depth
  {
    match t
    case Leaf(_, _) =>
    case Pair(z, o) =>
      LeavesDeeper(z, depth + 1);
      LeavesDeeper(o, depth + 1);
    case Lone(o) =>
      LeavesDeeper(o, depth + 1);
  }

  /** getOverflow is zero exactly when no key is longer than maxLength. */
  lemma {:induction false} OverflowZeroIff(t: HNode, height: int, maxLength: int)
    requires t.Leaf? ==> height <= maxLength
    ensures Overflow(t, height, maxLength) == 0 <==> DepthsBelow(Leaves(t, height), maxLength)
  {
    match t
    case Leaf(_, _) =>
    case Pair(z, o) =>
      LeavesDeeper(z, height + 1);
      LeavesDeeper(o, height + 1);
      if height + 1 > maxLength {
        assert Leaves(t, height)[0] == Leaves(z, height + 1)[0];
      } else {
        OverflowZeroIff(z, height + 1, maxLength);
        OverflowZeroIff(o, height + 1, maxLength);
        var lz, lo := Leaves(z, height + 1), Leaves(o, height + 1);
        assert DepthsBelow(lz + lo, maxLength) <==> DepthsBelow(lz, maxLength) && DepthsBelow(lo, maxLength) by {
          if DepthsBelow(lz + lo, maxLength) {
            forall k | 0 <= k < |lz| ensures lz[k].depth <= maxLength {
              assert (lz + lo)[k] == lz[k];
            }
            forall k | 0 <= k < |lo| ensures lo[k].depth <= maxLength {
              assert (lz + lo)[|lz| + k] == lo[k];
            }
          }
          if DepthsBelow(lz, maxLength) && DepthsBelow(lo, maxLength) {
            forall k | 0 <= k < |lz + lo| ensures (lz + lo)[k].depth <= maxLength {
              if k < |lz| {
                assert (lz + lo)[k] == lz[k];
              } else {
                assert (lz + lo)[k] == lo[k - |lz|];
              }
            }
          }
        }
      }
    case Lone(o) =>
      LeavesDeeper(o, height + 1);
      if height + 1 > maxLength {
        assert Leaves(t, height)[0] == Leaves(o, height + 1)[0];
      } else {
        OverflowZeroIff(o, height + 1, maxLength);
      }
  }

  /** Each leaf carries the frequency of its symbol. */
  ghost predicate FreqsMatch(t: HNode, freqs: seq<int>)
  {
    match t
    case Leaf(s, f) => 0 <= s < |freqs| && f == freqs[s]
    case Pair(z, o) => FreqsMatch(z, freqs) && FreqsMatch(o, freqs)
    case Lone(o) => FreqsMatch(o, freqs)
  }

  /** A multiset in which nothing occurs twice. */
  ghost predicate NoRepeats(m: multiset<int>)
  {
    forall x :: m[x] <= 1
  }

  /** Two equal entries make a value occur twice. */
  lemma TwoOccurrences(s: seq<int>, a: int, b: int)
    requires 0 <= a < b < |s|
    ensures s[a] == s[b] ==> multiset(s)[s[a]] >= 2
  {
    assert s == s[..b] + s[b..];
    assert s[..b][a] == s[a];
    assert s[b..][0] == s[b];
    assert multiset(s) == multiset(s[..b]) + multiset(s[b..]);
  }

  /** A sequence whose multiset has no repeats has distinct entries. */
  lemma NoRepeatsDistinct(s: seq<int>)
    requires NoRepeats(multiset(s))
    ensures forall a, b :: 0 <= a < b < |s| ==> s[a] != s[b]
  {
    forall a, b | 0 <= a < b < |s|
      ensures s[a] != s[b]
    {
      TwoOccurrences(s, a, b);
    }
  }

  // ---------------------------------------------------------------------
  // Collections.sort(tree, by key length), as used by buildLength.

  ghost predicate SortedByDepth(ls: seq<LeafAt>)
  {
    forall a, b :: 0 <= a < b < |ls| ==> ls[a].depth <= ls[b].depth
  }

  /** Insert x before the first deeper key: equal depths keep their order. */
  function Insert(x: LeafAt, s: seq<LeafAt>): (r: seq<LeafAt>)
    ensures |r| == |s| + 1
    ensures multiset(r) == multiset(s) + multiset{x}
  {
    if |s| == 0 then [x]
    else if x.depth < s[0].depth then [x] + s
    else
      assert s == [s[0]] + s[1..];
      [s[0]] + Insert(x, s[1..])
  }

  lemma {:induction false} InsertSorted(x: LeafAt, s: seq<LeafAt>)
    requires SortedByDepth(s)
    ensures SortedByDepth(Insert(x, s))
  {
    if |s| > 0 && x.depth >= s[0].depth {
      var t := Insert(x, s[1..]);
      InsertSorted(x, s[1..]);
      forall k | 0 <= k < |t| ensures s[0].depth <= t[k].depth {
        assert t[k] in multiset(t);
        if t[k] != x {
          assert t[k] in multiset(s[1..]);
          var j :| 0 <= j < |s[1..]| && s[1..][j] == t[k];
          assert s[j + 1] == t[k];
        }
      }
    }
  }

  /** No two keys share a symbol. */
  ghost predicate DistinctSymbols(ls: seq<LeafAt>)
  {
    forall a, b :: 0 <= a < b < |ls| ==> ls[a].symbol != ls[b].symbol
  }

  lemma {:induction false} InsertDistinct(x: LeafAt, s: seq<LeafAt>)
    requires DistinctSymbols(s)
    requires forall k :: 0 <= k < |s| ==> s[k].symbol != x.symbol
    ensures DistinctSymbols(Insert(x, s))
  {
    if |s| > 0 && x.depth >= s[0].depth {
      var t := Insert(x, s[1..]);
      InsertDistinct(x, s[1..]);
      forall k | 0 <= k < |t| ensures s[0].symbol != t[k].symbol {
        assert t[k] in multiset(t);
        if t[k] != x {
          assert t[k] in multiset(s[1..]);
          var j :| 0 <= j < |s[1..]| && s[1..][j] == t[k];
          assert s[j + 1] == t[k];
        }
      }
    }
  }

  /** A stable sort by depth: a permutation of its input, in depth order. */
  function SortByDepth(ls: seq<LeafAt>): (r: seq<LeafAt>)
    ensures SortedByDepth(r) && |r| == |ls|
    ensures multiset(r) == multiset(ls)
  {
    if |ls| == 0 then []
    else
      var t := SortByDepth(ls[1..]);
      InsertSorted(ls[0], t);
      assert ls == [ls[0]] + ls[1..];
      Insert(ls[0], t)
  }

  /** Sorting keys with distinct symbols keeps them distinct. */
  lemma {:induction false} SortDistinct(ls: seq<LeafAt>)
    requires DistinctSymbols(ls)
    ensures DistinctSymbols(SortByDepth(ls))
  {
    if |ls| > 0 {
      var t := SortByDepth(ls[1..]);
      SortDistinct(ls[1..]);
      forall k | 0 <= k < |t| ensures t[k].symbol != ls[0].symbol {
        assert t[k] in multiset(ls[1..]);
        var j :| 0 <= j < |ls[1..]| && ls[1..][j] == t[k];
        assert ls[j + 1] == t[k];
      }
      InsertDistinct(ls[0], t);
    }
  }

  /** A trie holding no symbol twice lists each symbol once. */
  lemma LeavesDistinct(t: HNode, depth: int)
    requires NoRepeats(Syms(t))
    ensures DistinctSymbols(Leaves(t, depth))
  {
    LeavesHoldSyms(t, depth);
    NoRepeatsDistinct(SymbolsOf(Leaves(t, depth)));
  }

  /** Some leaf of ls holds symbol s. */
  ghost predicate HasSymbol(ls: seq<LeafAt>, s: int)
  {
    exists k :: 0 <= k < |ls| && ls[k].symbol == s
  }

  /** The keys of a trie are exactly its symbols. */
  lemma LeafSymbolIff(t: HNode, depth: int, s: int)
    ensures s in Syms(t) <==> HasSymbol(Leaves(t, depth), s)
  {
    LeavesHoldSyms(t, depth);
    var ss := SymbolsOf(Leaves(t, depth));
    if s in Syms(t) {
      assert s in multiset(ss);
      var k :| 0 <= k < |ss| && ss[k] == s;
      assert Leaves(t, depth)[k].symbol == s;
    }
    if exists k :: 0 <= k < |Leaves(t, depth)| && Leaves(t, depth)[k].symbol == s {
      var k :| 0 <= k < |Leaves(t, depth)| && Leaves(t, depth)[k].symbol == s;
      assert ss[k] == s;
      assert s in multiset(ss);
    }
  }

  /** Leaves that carry frequencies of freqs hold symbols of freqs. */
  lemma {:induction false} LeavesInRange(t: HNode, depth: int, freqs: seq<int>)
    requires FreqsMatch(t, freqs)
    ensures forall k :: 0 <= k < |Leaves(t, depth)| ==> 0 <= Leaves(t, depth)[k].symbol < |freqs|
  {
    match t
    case Leaf(_, _) =>
    case Pair(z, o) =>
      LeavesInRange(z, depth + 1, freqs);
      LeavesInRange(o, depth + 1, freqs);
      var lz: seq<LeafAt>, lo: seq<LeafAt> := Leaves(z, depth + 1), Leaves(o, depth + 1);
      forall k | 0 <= k < |lz + lo| ensures 0 <= (lz + lo)[k].symbol < |freqs| {
        if k >= |lz| {
          assert (lz + lo)[k] == lo[k - |lz|];
        }
      }
    case Lone(o) =>
      LeavesInRange(o, depth + 1, freqs);
  }
}
