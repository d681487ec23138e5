/** What repetition characters, runs of them, the dot and bitmaps mean: laws of the language that name none of the tests
    by which the compiler and the matcher decide. */
module RegexLaws {
  import opened RegexSyntax

  // ---- One repetition character ----

  /** `w` is put together from these words of the language. */
  ghost predicate MadeOf(f: Flags, r: Re, ws: seq<seq<byte>>, w: seq<byte>) {
    Flat(ws) == w && forall x | x in ws :: Lang(f, r, x)
  }

  /** `?` is at most one word, `*` any number of words, and `+` at least one. */
  lemma {:induction false} RepetitionMeans(f: Flags, b: Re, w: seq<byte>)
    ensures Lang(f, Rep(b, [Quest]), w) <==> w == [] || Lang(f, b, w)
    ensures Lang(f, Rep(b, [Star]), w) <==> exists ws :: MadeOf(f, b, ws, w)
    ensures Lang(f, Rep(b, [Plus]), w) <==> exists ws :: MadeOf(f, b, ws, w) && |ws| >= 1
  {
    hide Lang;
    OneOp(f, b, Quest, w);
    OneOp(f, b, Star, w);
    OneOp(f, b, Plus, w);
    FlatOne([]);
    FlatOne([w]);
    if w == [] { assert MadeOf(f, b, [], w); }
    if Lang(f, b, w) { assert MadeOf(f, b, [w], w); }
    if ws :| MadeOf(f, b, ws, w) && |ws| <= 1 { FlatOne(ws); }
  }

  lemma {:induction false} OneOp(f: Flags, b: Re, o: Op, w: seq<byte>)
    ensures Lang(f, Rep(b, [o]), w) <==>
      exists ws :: MadeOf(f, b, ws, w) && (o == Plus ==> |ws| >= 1) && (o == Quest ==> |ws| <= 1)
  {
    hide ZeroOk, ManyOk;
    RunAllows([o]);
    if Lang(f, Rep(b, [o]), w) {
      var ws :| Flat(ws) == w && (forall x | x in ws :: Lang(f, b, x)) && (ZeroOk([o]) || |ws| >= 1) && (ManyOk([o]) || |ws| <= 1);
      assert MadeOf(f, b, ws, w);
    }
    if ws :| MadeOf(f, b, ws, w) && (o == Plus ==> |ws| >= 1) && (o == Quest ==> |ws| <= 1) {
      assert Flat(ws) == w;
    }
  }

  lemma {:induction false} PrefixIs(f: Flags, b: Re, w: seq<byte>, k: nat)
    requires k <= |w|
    ensures M(f, b, w, 0, k) <==> Lang(f, b, w[..k])
  {
    hide M, Lang;
    assert w[0..k] == w[..k];
    PositionsAreWords(f, b, w, 0, k);
  }

  lemma {:induction false} SuffixIs(f: Flags, b: Re, w: seq<byte>, k: nat)
    requires k <= |w|
    ensures Iter(f, b, w, k, |w|) <==> Lang(f, Rep(b, [Star]), w[k..])
  {
    hide Lang, Iter, M, ZeroOk, ManyOk;
    assert w[k..|w|] == w[k..];
    PositionsAreWords(f, Rep(b, [Star]), w, k, |w|);
    RunAllows([Star]);
    StarSteps(f, Rep(b, [Star]), w, k);
  }

  lemma {:induction false} PlusSplits(f: Flags, r: Re, t: seq<byte>, i: nat, j: nat) returns (m: nat)
    requires r.Rep? && ManyOk(r.ops) && !ZeroOk(r.ops) && i <= j <= |t| && M(f, r, t, i, j)
    ensures i <= m <= j && M(f, r.body, t, i, m) && Iter(f, r.body, t, m, j)
  {
    m :| i <= m <= j && M(f, r.body, t, i, m) && Iter(f, r.body, t, m, j);
  }

  lemma {:induction false} PlusJoins(f: Flags, r: Re, t: seq<byte>, i: nat, m: nat, j: nat)
    requires r.Rep? && ManyOk(r.ops) && !ZeroOk(r.ops) && i <= m <= j <= |t|
    requires M(f, r.body, t, i, m) && Iter(f, r.body, t, m, j)
    ensures M(f, r, t, i, j)
  {
  }

  lemma {:induction false} StarSteps(f: Flags, r: Re, w: seq<byte>, k: nat)
    requires r.Rep? && ManyOk(r.ops) && ZeroOk(r.ops) && k <= |w|
    ensures M(f, r, w, k, |w|) <==> Iter(f, r.body, w, k, |w|)
  {
    hide Iter;
  }

  /** A word of the one language, up to `k`, and then one of the other. */
  ghost predicate SplitsAt(f: Flags, a: Re, b: Re, w: seq<byte>, k: nat) {
    k <= |w| && Lang(f, a, w[..k]) && Lang(f, b, w[k..])
  }

  lemma {:induction false} SplitIs(f: Flags, b: Re, w: seq<byte>, k: nat)
    requires k <= |w|
    ensures SplitsAt(f, b, Rep(b, [Star]), w, k) <==> M(f, b, w, 0, k) && Iter(f, b, w, k, |w|)
  {
    hide Lang, M, Iter;
    PrefixIs(f, b, w, k);
    SuffixIs(f, b, w, k);
  }

  /** `*` is nothing, or a word that is not empty and then `*` again; `+` is a word and then `*`. */
  lemma {:induction false} StarUnfolds(f: Flags, b: Re, w: seq<byte>)
    ensures Lang(f, Rep(b, [Star]), w) <==> w == [] || exists k: nat :: k > 0 && SplitsAt(f, b, Rep(b, [Star]), w, k)
    ensures Lang(f, Rep(b, [Plus]), w) <==> exists k: nat :: SplitsAt(f, b, Rep(b, [Star]), w, k)
  {
    hide Lang, M, SplitsAt, ZeroOk, ManyOk;
    var n := |w|;
    assert w[0..] == w && w[0..n] == w;
    RunAllows([Plus]);
    SuffixIs(f, b, w, 0);
    PositionsAreWords(f, Rep(b, [Plus]), w, 0, n);
    if n > 0 && Iter(f, b, w, 0, n) {
      var m: nat :| 0 < m <= n && M(f, b, w, 0, m) && Iter(f, b, w, m, n);
      SplitIs(f, b, w, m);
    }
    if M(f, Rep(b, [Plus]), w, 0, n) {
      var m := PlusSplits(f, Rep(b, [Plus]), w, 0, n);
      SplitIs(f, b, w, m);
    }
    if k: nat :| SplitsAt(f, b, Rep(b, [Star]), w, k) {
      SplitBounds(f, b, Rep(b, [Star]), w, k);
      SplitIs(f, b, w, k);
      PlusJoins(f, Rep(b, [Plus]), w, 0, k, n);
    }
    if k: nat :| k > 0 && SplitsAt(f, b, Rep(b, [Star]), w, k) {
      SplitBounds(f, b, Rep(b, [Star]), w, k);
      SplitIs(f, b, w, k);
    }
  }

  lemma SplitBounds(f: Flags, a: Re, b: Re, w: seq<byte>, k: nat)
    requires SplitsAt(f, a, b, w, k)
    ensures k <= |w|
  {
  }

  // ---- A run of them ----

  lemma {:induction false} FlatConcat(us: seq<seq<byte>>, vs: seq<seq<byte>>)
    ensures Flat(us + vs) == Flat(us) + Flat(vs)
    decreases |us|
  {
    if us == [] {
      assert us + vs == vs;
    } else {
      assert (us + vs)[1..] == us[1..] + vs;
      FlatConcat(us[1..], vs);
    }
  }

  lemma {:induction false} SomeOk(ops: seq<Op>)
    requires ops != []
    ensures ZeroOk(ops) || ManyOk(ops)
  {
  }

  ghost predicate Words(f: Flags, b: Re, ops: seq<Op>, ws: seq<seq<byte>>, w: seq<byte>) {
    MadeOf(f, b, ws, w) && (ZeroOk(ops) || |ws| >= 1) && (ManyOk(ops) || |ws| <= 1)
  }

  lemma {:induction false} RepWords(f: Flags, b: Re, ops: seq<Op>, w: seq<byte>)
    ensures Lang(f, Rep(b, ops), w) <==> exists ws :: Words(f, b, ops, ws, w)
  {
    if Lang(f, Rep(b, ops), w) {
      var ws :| Flat(ws) == w && (forall x | x in ws :: Lang(f, b, x)) && (ZeroOk(ops) || |ws| >= 1) && (ManyOk(ops) || |ws| <= 1);
      assert Words(f, b, ops, ws, w);
    }
    if ws :| Words(f, b, ops, ws, w) { assert Flat(ws) == w; }
  }

  /** Words of a repetition are put together from words of its body. */
  lemma {:induction false} Flattened(f: Flags, b: Re, ops: seq<Op>, vs: seq<seq<byte>>) returns (us: seq<seq<byte>>)
    requires forall v | v in vs :: Lang(f, Rep(b, ops), v)
    ensures MadeOf(f, b, us, Flat(vs)) && (vs != [] && !ZeroOk(ops) ==> us != [])
    decreases |vs|
  {
    hide Lang, ZeroOk, ManyOk;
    us := [];
    if vs != [] {
      RepWords(f, b, ops, vs[0]);
      var ws :| Words(f, b, ops, ws, vs[0]);
      var rest := Flattened(f, b, ops, vs[1..]);
      us := ws + rest;
      FlatConcat(ws, rest);
    }
  }

  /** Collapsing a run is right: one more character is one more repetition of what stands before it. */
  lemma {:induction false} RunMeans(f: Flags, b: Re, ops: seq<Op>, o: Op, w: seq<byte>)
    requires ops != []
    ensures Lang(f, Rep(b, ops + [o]), w) <==> Lang(f, Rep(Rep(b, ops), [o]), w)
  {
    hide Lang, ZeroOk, ManyOk, Flat;
    RepWords(f, b, ops + [o], w);
    RepWords(f, Rep(b, ops), [o], w);
    if ws :| Words(f, b, ops + [o], ws, w) { RunForth(f, b, ops, o, ws, w); }
    if vs :| Words(f, Rep(b, ops), [o], vs, w) { RunBack(f, b, ops, o, vs, w); }
  }

  lemma {:induction false} RunForth(f: Flags, b: Re, ops: seq<Op>, o: Op, ws: seq<seq<byte>>, w: seq<byte>)
    requires ops != [] && Words(f, b, ops + [o], ws, w)
    ensures exists vs :: Words(f, Rep(b, ops), [o], vs, w)
  {
    hide Lang;
    MoreOps(ops, o);
    MoreOps([], o);
    assert [] + [o] == [o];
    SomeOk(ops);
    forall x | x in ws ensures Lang(f, Rep(b, ops), x) {
      FlatOne([x]);
      RepWords(f, b, ops, x);
      assert Words(f, b, ops, [x], x);
    }
    if o == Quest {
      RepWords(f, b, ops, w);
      if ws == [] {
        assert Words(f, Rep(b, ops), [o], [], w);
      } else {
        FlatOne([w]);
        assert Words(f, b, ops, ws, w);
        assert Words(f, Rep(b, ops), [o], [w], w);
      }
    } else if ws == [] && o == Plus {
      FlatOne([[]]);
      RepWords(f, b, ops, []);
      assert Words(f, b, ops, [], []);
      assert Words(f, Rep(b, ops), [o], [[]], w);
    } else {
      assert Words(f, Rep(b, ops), [o], ws, w);
    }
  }

  lemma {:induction false} RunBack(f: Flags, b: Re, ops: seq<Op>, o: Op, vs: seq<seq<byte>>, w: seq<byte>)
    requires ops != [] && Words(f, Rep(b, ops), [o], vs, w)
    ensures exists ws :: Words(f, b, ops + [o], ws, w)
  {
    hide Lang;
    MoreOps(ops, o);
    MoreOps([], o);
    assert [] + [o] == [o];
    if o == Quest {
      if vs == [] {
        assert Words(f, b, ops + [o], [], w);
      } else {
        FlatOne(vs);
        assert vs[0] in vs;
        RepWords(f, b, ops, w);
        var ws :| Words(f, b, ops, ws, w);
        assert Words(f, b, ops + [o], ws, w);
      }
    } else {
      var us := Flattened(f, b, ops, vs);
      assert Words(f, b, ops + [o], us, w);
    }
  }

  // ---- One after the other ----

  lemma {:induction false} CatWords(f: Flags, a: Re, b: Re, w: seq<byte>, k: nat)
    requires k <= |w| && Lang(f, a, w[..k]) && Lang(f, b, w[k..])
    ensures Lang(f, Cat(a, b), w)
  {
  }

  lemma {:induction false} CatParts(f: Flags, a: Re, b: Re, w: seq<byte>) returns (k: nat)
    requires Lang(f, Cat(a, b), w)
    ensures k <= |w| && Lang(f, a, w[..k]) && Lang(f, b, w[k..])
  {
    k :| 0 <= k <= |w| && Lang(f, a, w[..k]) && Lang(f, b, w[k..]);
  }

  // ---- Single characters ----

  /** `.` is any character, newline and NUL as the syntax bits say. */
  lemma DotMeans(f: Flags, w: seq<byte>)
    ensures Lang(f, Any, w) <==> |w| == 1 && (w[0] == 10 ==> f.dotNewline) && (w[0] == 0 ==> !f.dotNotNull)
  {
  }

  /** A set is the characters whose bit is on, or all others. */
  lemma SetMeans(f: Flags, neg: bool, bits: seq<byte>, w: seq<byte>)
    ensures Lang(f, Set(neg, bits), w) <==>
      |w| == 1 && (w[0] < 8 * |bits| && Bit(bits[w[0] / 8], w[0] % 8)) != neg
  {
  }

  function BitValue(on: bool, value: nat): nat {
    if on then value else 0
  }

  /** The bits of a byte in a bitmap: the lowest stands for the first of its eight characters. */
  lemma BitsAddUp(b: byte)
    ensures b == BitValue(Bit(b, 0), 1) + BitValue(Bit(b, 1), 2) + BitValue(Bit(b, 2), 4) + BitValue(Bit(b, 3), 8)
      + BitValue(Bit(b, 4), 16) + BitValue(Bit(b, 5), 32) + BitValue(Bit(b, 6), 64) + BitValue(Bit(b, 7), 128)
  {
    hide Pow2, Bit;
    Halves(b);
    LowBits(b);
    HighBits(b);
  }

  lemma LowBits(b: byte)
    ensures BitValue(Bit(b, 0), 1) == b % 2 && BitValue(Bit(b, 1), 2) == 2 * (b / 2 % 2)
    ensures BitValue(Bit(b, 2), 4) == 4 * (b / 4 % 2) && BitValue(Bit(b, 3), 8) == 8 * (b / 8 % 2)
  {
    hide Pow2;
    Powers();
  }

  lemma HighBits(b: byte)
    ensures BitValue(Bit(b, 4), 16) == 16 * (b / 16 % 2) && BitValue(Bit(b, 5), 32) == 32 * (b / 32 % 2)
    ensures BitValue(Bit(b, 6), 64) == 64 * (b / 64 % 2) && BitValue(Bit(b, 7), 128) == 128 * (b / 128 % 2)
  {
    hide Pow2;
    Powers();
  }

  lemma Powers()
    ensures Pow2(0) == 1 && Pow2(1) == 2 && Pow2(2) == 4 && Pow2(3) == 8
    ensures Pow2(4) == 16 && Pow2(5) == 32 && Pow2(6) == 64 && Pow2(7) == 128
  {
    assert Pow2(3) == 8;
    assert Pow2(5) == 32;
  }

  lemma Halves(b: byte)
    ensures b == b % 2 + 2 * (b / 2) && b / 2 == b / 2 % 2 + 2 * (b / 4) && b / 4 == b / 4 % 2 + 2 * (b / 8)
    ensures b / 8 == b / 8 % 2 + 2 * (b / 16) && b / 16 == b / 16 % 2 + 2 * (b / 32) && b / 32 == b / 32 % 2 + 2 * (b / 64)
    ensures b / 64 == b / 64 % 2 + 2 * (b / 128) && b / 128 == b / 128 % 2
  {
    assert b / 4 == b / 2 / 2 by { Half2(b); }
    assert b / 8 == b / 4 / 2 by { Half4(b); }
    assert b / 16 == b / 8 / 2 by { Half8(b); }
    assert b / 32 == b / 16 / 2 by { Half16(b); }
    assert b / 64 == b / 32 / 2 by { Half32(b); }
    assert b / 128 == b / 64 / 2 by { Half64(b); }
  }

  lemma Half2(b: byte)
    ensures b / 4 == b / 2 / 2
  {
  }

  lemma Half4(b: byte)
    ensures b / 8 == b / 4 / 2
  {
  }

  lemma Half8(b: byte)
    ensures b / 16 == b / 8 / 2
  {
  }

  lemma Half16(b: byte)
    ensures b / 32 == b / 16 / 2
  {
  }

  lemma Half32(b: byte)
    ensures b / 64 == b / 32 / 2
  {
  }

  lemma Half64(b: byte)
    ensures b / 128 == b / 64 / 2
  {
  }
}
