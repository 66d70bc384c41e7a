/** The run-length coding of a code-length sequence that Tree.calcBLFreq
    counts and Tree.writeTree writes (section 3.2.7 of RFC 1951): a length
    is sent as itself, a run of the previous nonzero length as symbol 16
    with 2 extra bits, a run of zeros as symbol 17 (3 extra bits) or
    symbol 18 (7 extra bits). */
module CodeLengths {
  import opened JavaErrors
  import opened Bits

  const REP_3_6 := 16
  const REP_3_10 := 17
  const REP_11_138 := 18

  /** One step of the coding, as both loops choose it. */
  datatype Token =
    | Sym(len: int)
    | Rep16(count: int)
    | Rep17(count: int)
    | Rep18(count: int)

  /** The inner loop of both methods: from position i it walks over the
      run of cur, counting, and stops at the end of the run, at n, or as
      soon as the count reaches maxCount.  The result is (i, count). */
  function RunEnd(lens: seq<int>, n: int, i: int, cur: int, count: int, maxCount: int): (r: (int, int))
    requires 0 <= i <= n <= |lens|
    ensures i <= r.0 <= n
    decreases n - i
  {
    if i < n && lens[i] == cur then
      if count + 1 >= maxCount then (i + 1, count + 1)
      else RunEnd(lens, n, i + 1, cur, count + 1, maxCount)
    else (i, count)
  }

  function Repeat<T>(x: T, count: int): (r: seq<T>)
    ensures |r| == if count < 0 then 0 else count
    ensures forall k :: 0 <= k < |r| ==> r[k] == x
    decreases count
  {
    if count <= 0 then [] else [x] + Repeat(x, count - 1)
  }

  /** What closes a run of count more copies of cur. */
  function RunTokens(cur: int, count: int): seq<Token>
  {
    if count < 3 then Repeat(Sym(cur), count)
    else if cur != 0 then [Rep16(count)]
    else if count <= 10 then [Rep17(count)]
    else [Rep18(count)]
  }

  /** The outer loop from position i, curlen being the previous length
      (-1 before the first). */
  function Scan(lens: seq<int>, n: int, i: int, curlen: int): seq<Token>
    requires 0 <= i <= n <= |lens|
    decreases n - i
  {
    if i >= n then []
    else
      var nextlen := lens[i];
      var maxCount := if nextlen == 0 then 138 else 6;
      var r := RunEnd(lens, n, i + 1, nextlen, if Opens(nextlen, curlen) then 0 else 1, maxCount);
      Head(nextlen, curlen) + RunTokens(nextlen, r.1) + Scan(lens, n, r.0, nextlen)
  }

  /** A nonzero length different from the previous one is sent first. */
  predicate Opens(nextlen: int, curlen: int)
  {
    nextlen != 0 && curlen != nextlen
  }

  function Head(nextlen: int, curlen: int): seq<Token>
  {
    if Opens(nextlen, curlen) then [Sym(nextlen)] else []
  }

  /** The coding of lens[0..n). */
  function Tokens(lens: seq<int>, n: int): seq<Token>
    requires 0 <= n <= |lens|
  {
    Scan(lens, n, 0, -1)
  }

  // ---------------------------------------------------------------------
  // What is written: code-length symbols and extra-bit fields.

  datatype Emit = Symbol(s: int) | Extra(value: int, width: int)

  /** The writes of writeTree for one token. */
  function TokenEmits(t: Token): seq<Emit>
  {
    match t
    case Sym(l) => [Symbol(l)]
    case Rep16(c) => [Symbol(REP_3_6), Extra(c - 3, 2)]
    case Rep17(c) => [Symbol(REP_3_10), Extra(c - 3, 3)]
    case Rep18(c) => [Symbol(REP_11_138), Extra(c - 11, 7)]
  }

  function Emits(ts: seq<Token>): seq<Emit>
  {
    if |ts| == 0 then [] else TokenEmits(ts[0]) + Emits(ts[1..])
  }

  lemma {:induction false} EmitsAppend(a: seq<Token>, b: seq<Token>)
    ensures Emits(a + b) == Emits(a) + Emits(b)
  {
    if |a| > 0 {
      assert (a + b)[0] == a[0];
      assert (a + b)[1..] == a[1..] + b;
      EmitsAppend(a[1..], b);
    } else {
      assert a + b == b;
    }
  }

  lemma EmitsSingle(t: Token)
    ensures Emits([t]) == TokenEmits(t)
  {
    assert [t][1..] == [];
  }

  /** The number of times symbol s is written. */
  function SymbolCount(es: seq<Emit>, s: int): nat
  {
    if |es| == 0 then 0 else (if es[0] == Symbol(s) then 1 else 0) + SymbolCount(es[1..], s)
  }

  lemma {:induction false} SymbolCountAppend(a: seq<Emit>, b: seq<Emit>, s: int)
    ensures SymbolCount(a + b, s) == SymbolCount(a, s) + SymbolCount(b, s)
  {
    if |a| > 0 {
      assert (a + b)[0] == a[0];
      assert (a + b)[1..] == a[1..] + b;
      SymbolCountAppend(a[1..], b, s);
    } else {
      assert a + b == b;
    }
  }

  /** How many times a closing run writes symbol s: what calcBLFreq adds. */
  lemma {:induction false} RunSymbolCount(cur: int, count: int, s: int)
    requires 0 <= cur <= 15 && count >= 0
    ensures SymbolCount(Emits(RunTokens(cur, count)), s) == ClosingCount(cur, count, s)
  {
    if count < 3 {
      RepeatSymCount(cur, count, s);
    } else {
      var t := RunTokens(cur, count)[0];
      assert RunTokens(cur, count) == [t];
      EmitsSingle(t);
      var es := TokenEmits(t);
      assert es[1..][1..] == [];
      assert SymbolCount(es[1..], s) == 0;
      assert SymbolCount(es, s) == (if es[0] == Symbol(s) then 1 else 0);
    }
  }

  lemma {:induction false} RepeatSymCount(cur: int, count: int, s: int)
    requires count >= 0
    ensures SymbolCount(Emits(Repeat(Sym(cur), count)), s) == if s == cur then count else 0
    decreases count
  {
    if count > 0 {
      var r := Repeat(Sym(cur), count);
      assert r[1..] == Repeat(Sym(cur), count - 1);
      assert Emits(r) == TokenEmits(Sym(cur)) + Emits(r[1..]);
      RepeatSymCount(cur, count - 1, s);
      SymbolCountAppend(TokenEmits(Sym(cur)), Emits(r[1..]), s);
    }
  }

  /** What a run closed with count more copies of cur adds to the count
      of symbol s. */
  function ClosingCount(cur: int, count: int, s: int): int
  {
    if count < 3 then (if s == cur then count else 0)
    else if cur != 0 then (if s == REP_3_6 then 1 else 0)
    else if count <= 10 then (if s == REP_3_10 then 1 else 0)
    else (if s == REP_11_138 then 1 else 0)
  }

  /** One pass of the outer loop (the opening symbol, if any, and the
      closing of the run) adds to the symbol counts of what came before. */
  lemma PassCount(done: seq<Token>, nextlen: int, curlen: int, count: int)
    requires 0 <= nextlen <= 15 && count >= 0
    ensures forall s ::
      SymbolCount(Emits(done + Head(nextlen, curlen) + RunTokens(nextlen, count)), s) ==
      SymbolCount(Emits(done), s) + (if Opens(nextlen, curlen) && s == nextlen then 1 else 0) + ClosingCount(nextlen, count, s)
  {
    var head, run := Head(nextlen, curlen), RunTokens(nextlen, count);
    EmitsAppend(done + head, run);
    EmitsAppend(done, head);
    forall s
      ensures SymbolCount(Emits(done + head + run), s) ==
        SymbolCount(Emits(done), s) + (if Opens(nextlen, curlen) && s == nextlen then 1 else 0) + ClosingCount(nextlen, count, s)
    {
      SymbolCountAppend(Emits(done) + Emits(head), Emits(run), s);
      SymbolCountAppend(Emits(done), Emits(head), s);
      RunSymbolCount(nextlen, count, s);
      if Opens(nextlen, curlen) {
        EmitsSingle(Sym(nextlen));
        assert Emits(head) == [Symbol(nextlen)];
        assert SymbolCount([Symbol(nextlen)], s) == (if s == nextlen then 1 else 0) + SymbolCount([], s);
      } else {
        assert Emits(head) == [];
      }
    }
  }

  /** Scanning from i is one pass followed by the scan from where it ends. */
  lemma ScanUnfold(lens: seq<int>, n: int, i: int, curlen: int)
    requires 0 <= i < n <= |lens|
    ensures var r := PassEnd(lens, n, i, curlen);
      Scan(lens, n, i, curlen) == Head(lens[i], curlen) + RunTokens(lens[i], r.1) + Scan(lens, n, r.0, lens[i])
  {
  }

  // ---------------------------------------------------------------------
  // Decoding, as an inflater reads the stream.

  function Prepend(x: seq<int>, o: Option<seq<int>>): Option<seq<int>>
  {
    if o.Some? then Some(x + o.value) else None
  }

  /** Decoding of section 3.2.7 of RFC 1951: 0..15 are lengths; 16 copies
      the previous length 3 + (2 extra bits) times; 17 gives 3 + (3 extra
      bits) zeros and 18 gives 11 + (7 extra bits) zeros.  prev is the
      previous length, -1 before the first.  None: the stream is malformed
      (a repeat with no previous length, an extra field that is missing,
      of the wrong width or does not fit it). */
  function Decode(es: seq<Emit>, prev: int): Option<seq<int>>
    decreases |es|
  {
    if |es| == 0 then Some([])
    else if !es[0].Symbol? then None
    else
      var s := es[0].s;
      if 0 <= s <= 15 then Prepend([s], Decode(es[1..], s))
      else if |es| < 2 || !es[1].Extra? then None
      else
        var v, w := es[1].value, es[1].width;
        if s == REP_3_6 && w == 2 && 0 <= v < Pow2(2) && prev >= 0 then
          Prepend(Repeat(prev, v + 3), Decode(es[2..], prev))
        else if s == REP_3_10 && w == 3 && 0 <= v < Pow2(3) then
          Prepend(Repeat(0, v + 3), Decode(es[2..], 0))
        else if s == REP_11_138 && w == 7 && 0 <= v < Pow2(7) then
          Prepend(Repeat(0, v + 11), Decode(es[2..], 0))
        else None
  }

  ghost predicate LengthsInRange(lens: seq<int>, n: int)
    requires 0 <= n <= |lens|
  {
    forall k :: 0 <= k < n ==> 0 <= lens[k] <= 15
  }

  /** The inner loop stops inside the run: everything it passed is cur,
      and it counted one per position. */
  lemma {:induction false} RunEndFacts(lens: seq<int>, n: int, i: int, cur: int, count: int, maxCount: int)
    requires 0 <= i <= n <= |lens| && 0 <= count < maxCount
    ensures var r := RunEnd(lens, n, i, cur, count, maxCount);
      r.1 - count == r.0 - i && count <= r.1 <= maxCount &&
      forall k :: i <= k < r.0 ==> lens[k] == cur
    decreases n - i
  {
    if i < n && lens[i] == cur && count + 1 < maxCount {
      RunEndFacts(lens, n, i + 1, cur, count + 1, maxCount);
    }
  }

  lemma {:induction false} DecodeRepeatSym(v: int, count: int, rest: seq<Emit>, prev: int)
    requires 0 <= v <= 15 && count >= 1
    ensures Decode(Emits(Repeat(Sym(v), count)) + rest, prev) == Prepend(Repeat(v, count), Decode(rest, v))
    decreases count
  {
    var r := Repeat(Sym(v), count);
    assert r[1..] == Repeat(Sym(v), count - 1);
    var es := Emits(r) + rest;
    assert es == [Symbol(v)] + (Emits(r[1..]) + rest);
    assert es[1..] == Emits(r[1..]) + rest;
    assert es[0] == Symbol(v);
    assert Decode(es, prev) == Prepend([v], Decode(es[1..], v));
    if count > 1 {
      DecodeRepeatSym(v, count - 1, rest, v);
      assert Repeat(v, count) == [v] + Repeat(v, count - 1);
      PrependAssoc([v], Repeat(v, count - 1), Decode(rest, v));
    } else {
      assert r[1..] == [];
      assert Emits(r[1..]) == [];
      assert es[1..] == rest;
      assert Repeat(v, count) == [v];
    }
  }

  /** Decoding a closing run gives count copies of cur. */
  lemma DecodeRun(cur: int, count: int, rest: seq<Emit>, prev: int)
    requires 0 <= cur <= 15 && 0 <= count <= 138 && (cur != 0 ==> count <= 6)
    requires (count == 0 || (count >= 3 && cur != 0)) ==> prev == cur
    ensures Decode(Emits(RunTokens(cur, count)) + rest, prev) == Prepend(Repeat(cur, count), Decode(rest, cur))
  {
    if count == 0 {
      assert RunTokens(cur, count) == [];
      assert Emits(RunTokens(cur, count)) + rest == rest;
      assert Repeat(cur, 0) == [];
      var o := Decode(rest, cur);
      if o.Some? {
        assert [] + o.value == o.value;
      }
    } else if count < 3 {
      DecodeRepeatSym(cur, count, rest, prev);
    } else {
      var t := RunTokens(cur, count)[0];
      assert RunTokens(cur, count) == [t];
      EmitsSingle(t);
      var es := Emits(RunTokens(cur, count)) + rest;
      assert es[2..] == rest;
      assert Pow2(2) == 4 && Pow2(3) == 8 && Pow2(7) == 128;
      if cur == 0 {
        assert Repeat(0, count) == Repeat(cur, count);
      }
    }
  }

  lemma PrependAssoc(x: seq<int>, y: seq<int>, o: Option<seq<int>>)
    ensures Prepend(x, Prepend(y, o)) == Prepend(x + y, o)
  {
    if o.Some? {
      assert x + (y + o.value) == (x + y) + o.value;
    }
  }

  /** Decoding one pass of the outer loop: the opening symbol, if any,
      then the closing run. */
  lemma OpenRun(nextlen: int, curlen: int, count: int, et: seq<Emit>)
    requires 0 <= nextlen <= 15 && -1 <= curlen <= 15
    requires Opens(nextlen, curlen) ==> 0 <= count <= 6
    requires !Opens(nextlen, curlen) ==> 1 <= count <= (if nextlen == 0 then 138 else 6)
    ensures Decode(Emits(Head(nextlen, curlen)) + (Emits(RunTokens(nextlen, count)) + et), curlen) ==
      Prepend(Repeat(nextlen, if Opens(nextlen, curlen) then count + 1 else count), Decode(et, nextlen))
  {
    var er := Emits(RunTokens(nextlen, count));
    if Opens(nextlen, curlen) {
      EmitsSingle(Sym(nextlen));
      var es := [Symbol(nextlen)] + (er + et);
      assert es[1..] == er + et;
      DecodeRun(nextlen, count, et, nextlen);
      assert Repeat(nextlen, count + 1) == [nextlen] + Repeat(nextlen, count);
      PrependAssoc([nextlen], Repeat(nextlen, count), Decode(et, nextlen));
    } else {
      assert Emits([]) == [];
      assert [] + (er + et) == er + et;
      DecodeRun(nextlen, count, et, curlen);
    }
  }

  /** Where a pass of the outer loop from position i ends. */
  function PassEnd(lens: seq<int>, n: int, i: int, curlen: int): (r: (int, int))
    requires 0 <= i < n <= |lens|
    ensures i < r.0 <= n
  {
    var nextlen := lens[i];
    RunEnd(lens, n, i + 1, nextlen, if Opens(nextlen, curlen) then 0 else 1, if nextlen == 0 then 138 else 6)
  }

  /** Decoding what the loop emits from position i gives lens[i..n). */
  lemma {:induction false} DecodeScan(lens: seq<int>, n: int, i: int, curlen: int)
    requires 0 <= i <= n <= |lens| && LengthsInRange(lens, n)
    requires -1 <= curlen <= 15
    ensures Decode(Emits(Scan(lens, n, i, curlen)), curlen) == Some(lens[i..n])
    decreases n - i
  {
    if i < n {
      DecodeScan(lens, n, PassEnd(lens, n, i, curlen).0, lens[i]);
      DecodePass(lens, n, i, curlen);
    } else {
      assert Emits([]) == [];
      assert lens[i..n] == [];
    }
  }

  /** One pass of the outer loop, given the rest decodes. */
  lemma DecodePass(lens: seq<int>, n: int, i: int, curlen: int)
    requires 0 <= i < n <= |lens| && LengthsInRange(lens, n)
    requires -1 <= curlen <= 15
    requires var j := PassEnd(lens, n, i, curlen).0;
      Decode(Emits(Scan(lens, n, j, lens[i])), lens[i]) == Some(lens[j..n])
    ensures Decode(Emits(Scan(lens, n, i, curlen)), curlen) == Some(lens[i..n])
  {
    var nextlen := lens[i];
    var r := PassEnd(lens, n, i, curlen);
    var et := Emits(Scan(lens, n, r.0, nextlen));
    var cnt := if Opens(nextlen, curlen) then r.1 + 1 else r.1;
    assert lens[i..r.0] == Repeat(nextlen, cnt) && 0 <= nextlen <= 15 by {
      PassLens(lens, n, i, curlen);
    }
    calc {
      Decode(Emits(Scan(lens, n, i, curlen)), curlen);
      { PassEmits(lens, n, i, curlen); }
      Decode(Emits(Head(nextlen, curlen)) + (Emits(RunTokens(nextlen, r.1)) + et), curlen);
      { PassLens(lens, n, i, curlen);
        OpenRun(nextlen, curlen, r.1, et); }
      Prepend(Repeat(nextlen, cnt), Decode(et, nextlen));
      Prepend(lens[i..r.0], Some(lens[r.0..n]));
      { SliceSplit(lens, i, r.0, n); }
      Some(lens[i..n]);
    }
  }

  /** What a pass writes, followed by the rest. */
  lemma PassEmits(lens: seq<int>, n: int, i: int, curlen: int)
    requires 0 <= i < n <= |lens|
    ensures var r := PassEnd(lens, n, i, curlen);
      Emits(Scan(lens, n, i, curlen)) ==
      Emits(Head(lens[i], curlen)) + (Emits(RunTokens(lens[i], r.1)) + Emits(Scan(lens, n, r.0, lens[i])))
  {
    var r := PassEnd(lens, n, i, curlen);
    var head, run, tail := Head(lens[i], curlen), RunTokens(lens[i], r.1), Scan(lens, n, r.0, lens[i]);
    assert Scan(lens, n, i, curlen) == head + run + tail;
    EmitsAppend(head + run, tail);
    EmitsAppend(head, run);
  }

  /** The positions a pass covers, and its count. */
  lemma PassLens(lens: seq<int>, n: int, i: int, curlen: int)
    requires 0 <= i < n <= |lens|
    ensures var r := PassEnd(lens, n, i, curlen);
      var maxCount := if lens[i] == 0 then 138 else 6;
      (Opens(lens[i], curlen) ==> 0 <= r.1 <= maxCount && lens[i..r.0] == Repeat(lens[i], r.1 + 1)) &&
      (!Opens(lens[i], curlen) ==> 1 <= r.1 <= maxCount && lens[i..r.0] == Repeat(lens[i], r.1))
  {
    var count0 := if Opens(lens[i], curlen) then 0 else 1;
    var maxCount := if lens[i] == 0 then 138 else 6;
    RunEndFacts(lens, n, i + 1, lens[i], count0, maxCount);
    RunSlice(lens, n, i, count0, maxCount);
  }

  lemma SliceSplit(s: seq<int>, i: int, j: int, n: int)
    requires 0 <= i <= j <= n <= |s|
    ensures s[i..n] == s[i..j] + s[j..n]
  {
  }

  /** The positions a pass of the outer loop covers all hold its length. */
  lemma RunSlice(lens: seq<int>, n: int, i: int, count0: int, maxCount: int)
    requires 0 <= i < n <= |lens| && 0 <= count0 < maxCount
    ensures var r := RunEnd(lens, n, i + 1, lens[i], count0, maxCount);
      lens[i..r.0] == Repeat(lens[i], r.1 - count0 + 1)
  {
    var r := RunEnd(lens, n, i + 1, lens[i], count0, maxCount);
    RunEndFacts(lens, n, i + 1, lens[i], count0, maxCount);
    var run0 := lens[i..r.0];
    forall k | 0 <= k < |run0| ensures run0[k] == lens[i] {
      assert run0[k] == lens[i + k];
    }
    AllEqualIsRepeat(run0, lens[i]);
  }

  lemma AllEqualIsRepeat(s: seq<int>, v: int)
    requires forall k :: 0 <= k < |s| ==> s[k] == v
    ensures s == Repeat(v, |s|)
  {
  }

  /** Decoding writeTree's stream reproduces length[0..numCodes). */
  lemma DecodeTokens(lens: seq<int>, n: int)
    requires 0 <= n <= |lens| && LengthsInRange(lens, n)
    ensures Decode(Emits(Tokens(lens, n)), -1) == Some(lens[..n])
  {
    DecodeScan(lens, n, 0, -1);
    assert lens[0..n] == lens[..n];
  }

  // ---------------------------------------------------------------------
  // The extra fields fit their widths.

  ghost predicate EmitOk(e: Emit)
  {
    match e
    case Symbol(s) => 0 <= s < 19
    case Extra(v, w) => (w == 2 || w == 3 || w == 7) && 0 <= v < Pow2(w)
  }

  ghost predicate TokenOk(t: Token)
  {
    match t
    case Sym(l) => 0 <= l <= 15
    case Rep16(c) => 3 <= c <= 6
    case Rep17(c) => 3 <= c <= 10
    case Rep18(c) => 11 <= c <= 138
  }

  lemma {:induction false} EmitsOk(ts: seq<Token>)
    requires AllOk(ts)
    ensures forall k :: 0 <= k < |Emits(ts)| ==> EmitOk(Emits(ts)[k])
  {
    if |ts| > 0 {
      EmitsOk(ts[1..]);
      assert Pow2(2) == 4 && Pow2(3) == 8 && Pow2(7) == 128;
      var a, b := TokenEmits(ts[0]), Emits(ts[1..]);
      forall k | 0 <= k < |a + b| ensures EmitOk((a + b)[k]) {
        if k >= |a| {
          assert (a + b)[k] == b[k - |a|];
        }
      }
    }
  }

  /** Every token of ts is in range. */
  ghost predicate AllOk(ts: seq<Token>)
  {
    forall k :: 0 <= k < |ts| ==> TokenOk(ts[k])
  }

  lemma AllOkAppend(a: seq<Token>, b: seq<Token>)
    requires AllOk(a) && AllOk(b)
    ensures AllOk(a + b)
  {
    forall k | 0 <= k < |a + b| ensures TokenOk((a + b)[k]) {
      if k < |a| {
        assert (a + b)[k] == a[k];
      } else {
        assert (a + b)[k] == b[k - |a|];
      }
    }
  }

  /** The tokens of one pass of the outer loop: a length 0..15 and a run
      the inner loop stopped within its bound. */
  lemma PassOk(nextlen: int, curlen: int, count: int)
    requires 0 <= nextlen <= 15 && 0 <= count <= (if nextlen == 0 then 138 else 6)
    ensures AllOk(Head(nextlen, curlen) + RunTokens(nextlen, count))
  {
    AllOkAppend(Head(nextlen, curlen), RunTokens(nextlen, count));
  }

  lemma {:induction false} ScanTokensOk(lens: seq<int>, n: int, i: int, curlen: int)
    requires 0 <= i <= n <= |lens| && LengthsInRange(lens, n)
    ensures AllOk(Scan(lens, n, i, curlen))
    decreases n - i
  {
    if i < n {
      var nextlen := lens[i];
      var maxCount := if nextlen == 0 then 138 else 6;
      var r := RunEnd(lens, n, i + 1, nextlen, if Opens(nextlen, curlen) then 0 else 1, maxCount);
      RunEndFacts(lens, n, i + 1, nextlen, if Opens(nextlen, curlen) then 0 else 1, maxCount);
      ScanTokensOk(lens, n, r.0, nextlen);
      PassOk(nextlen, curlen, r.1);
      AllOkAppend(Head(nextlen, curlen) + RunTokens(nextlen, r.1), Scan(lens, n, r.0, nextlen));
    }
  }

  /** Every symbol writeTree writes is a code-length symbol 0..18, and the
      extra fields after 16, 17 and 18 fit in 2, 3 and 7 bits. */
  lemma TokensFit(lens: seq<int>, n: int)
    requires 0 <= n <= |lens| && LengthsInRange(lens, n)
    ensures forall k :: 0 <= k < |Emits(Tokens(lens, n))| ==> EmitOk(Emits(Tokens(lens, n))[k])
  {
    ScanTokensOk(lens, n, 0, -1);
    EmitsOk(Tokens(lens, n));
  }
}
