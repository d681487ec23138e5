/** The regular expressions that `regex_compile` accepts, and what they mean.
    Text is a sequence of bytes to which the caller's `translate` table has already been applied. */
module RegexSyntax {

  type byte = x: int | 0 <= x < 256

  /** RE_DOT_NEWLINE and RE_DOT_NOT_NULL, the two syntax bits that the matcher itself consults. */
  datatype Flags = Flags(dotNewline: bool, dotNotNull: bool)

  datatype Op = Star | Plus | Quest

  /** A parsed pattern. `Rep` keeps the whole run of repetition characters that follows an atom,
      since the compiler collapses the run; `Skip` is a run with nothing to repeat. */
  datatype Re =
    | Eps
    | Skip(ops: seq<Op>)
    | Lit(s: seq<byte>)
    | Any
    | Set(neg: bool, bits: seq<byte>)
    | Group(n: nat, inner: nat, body: Re)
    | Rep(body: Re, ops: seq<Op>)
    | Interval(body: Re, lo: nat, hi: nat)
    | Cat(a: Re, b: Re)
    | Alt(a: Re, b: Re)

  /** Some character of the run allows zero repetitions. */
  predicate ZeroOk(ops: seq<Op>) {
    ops != [] && (ops[0] != Plus || ZeroOk(ops[1..]))
  }

  /** Some character of the run allows more than one repetition. */
  predicate ManyOk(ops: seq<Op>) {
    ops != [] && (ops[0] != Quest || ManyOk(ops[1..]))
  }

  /** Zero repetitions need a `*` or a `?` in the run, and more than one a `*` or a `+`. */
  lemma {:induction false} RunAllows(ops: seq<Op>)
    ensures ZeroOk(ops) <==> Star in ops || Quest in ops
    ensures ManyOk(ops) <==> Star in ops || Plus in ops
    decreases |ops|
  {
    if ops != [] {
      RunAllows(ops[1..]);
      assert ops == [ops[0]] + ops[1..];
    }
  }

  /** One more character of the run. */
  lemma {:induction false} MoreOps(ops: seq<Op>, o: Op)
    ensures ZeroOk(ops + [o]) == (ZeroOk(ops) || o != Plus) && ManyOk(ops + [o]) == (ManyOk(ops) || o != Quest)
    decreases |ops|
  {
    if ops == [] {
      assert ops + [o] == [o];
    } else {
      assert (ops + [o])[1..] == ops[1..] + [o];
      MoreOps(ops[1..], o);
    }
  }

  function Pow2(k: nat): (r: nat)
    ensures r > 0
  {
    if k == 0 then 1 else 2 * Pow2(k - 1)
  }

  predicate Bit(b: byte, k: nat) {
    (b / Pow2(k)) % 2 == 1
  }

  /** Whether the bitmap holds `c`; a character past the end of the map is not in it. */
  predicate InMap(bits: seq<byte>, c: byte) {
    c < 8 * |bits| && Bit(bits[c / 8], c % 8)
  }

  predicate SetHas(neg: bool, bits: seq<byte>, c: byte) {
    InMap(bits, c) != neg
  }

  predicate AnyHas(f: Flags, c: byte) {
    !(!f.dotNewline && c == 10) && !(f.dotNotNull && c == 0)
  }

  // ---- The language of a pattern, as a set of words ----

  function Flat(ws: seq<seq<byte>>): seq<byte> {
    if ws == [] then [] else ws[0] + Flat(ws[1..])
  }

  ghost predicate Lang(f: Flags, r: Re, w: seq<byte>) {
    match r
    case Eps => w == []
    case Skip(_) => w == []
    case Lit(s) => w == s
    case Any => |w| == 1 && AnyHas(f, w[0])
    case Set(neg, bits) => |w| == 1 && SetHas(neg, bits, w[0])
    case Group(_, _, body) => Lang(f, body, w)
    case Rep(body, ops) =>
      exists ws: seq<seq<byte>> ::
        && Flat(ws) == w
        && (forall x | x in ws :: Lang(f, body, x))
        && (ZeroOk(ops) || |ws| >= 1)
        && (ManyOk(ops) || |ws| <= 1)
    case Interval(body, lo, hi) =>
      exists ws: seq<seq<byte>> ::
        Flat(ws) == w && (forall x | x in ws :: Lang(f, body, x)) && lo <= |ws| <= hi
    case Cat(a, b) => exists k | 0 <= k <= |w| :: Lang(f, a, w[..k]) && Lang(f, b, w[k..])
    case Alt(a, b) => Lang(f, a, w) || Lang(f, b, w)
  }

  // ---- The same, over positions of a text; iterations of a loop are never empty ----

  ghost predicate M(f: Flags, r: Re, t: seq<byte>, i: nat, j: nat)
    requires i <= j <= |t|
    decreases r, 0, 0
  {
    match r
    case Eps => i == j
    case Skip(_) => i == j
    case Lit(s) => t[i..j] == s
    case Any => j == i + 1 && AnyHas(f, t[i])
    case Set(neg, bits) => j == i + 1 && SetHas(neg, bits, t[i])
    case Group(_, _, body) => M(f, body, t, i, j)
    case Rep(body, ops) =>
      if !ManyOk(ops) then (ZeroOk(ops) && i == j) || M(f, body, t, i, j)
      else if ZeroOk(ops) then Iter(f, body, t, i, j)
      else exists m: nat | i <= m <= j :: M(f, body, t, i, m) && Iter(f, body, t, m, j)
    case Interval(_, _, _) => Lang(f, r, t[i..j])
    case Cat(a, b) => exists m: nat | i <= m <= j :: M(f, a, t, i, m) && M(f, b, t, m, j)
    case Alt(a, b) => M(f, a, t, i, j) || M(f, b, t, i, j)
  }

  /** Zero or more non-empty iterations of `r` take the text from `i` to `j`. */
  ghost predicate Iter(f: Flags, r: Re, t: seq<byte>, i: nat, j: nat)
    requires i <= j <= |t|
    decreases r, 1, j - i
  {
    i == j || exists m: nat | i < m <= j :: M(f, r, t, i, m) && Iter(f, r, t, m, j)
  }

  lemma FlatCons(w: seq<byte>, ws: seq<seq<byte>>)
    ensures Flat([w] + ws) == w + Flat(ws)
  {
    assert ([w] + ws)[1..] == ws;
  }

  /** One more iteration in front, possibly an empty one. */
  lemma IterCons(f: Flags, r: Re, t: seq<byte>, i: nat, m: nat, j: nat)
    requires i <= m <= j <= |t|
    requires M(f, r, t, i, m) && Iter(f, r, t, m, j)
    ensures Iter(f, r, t, i, j)
  {
  }

  lemma {:induction false} IterToWords(f: Flags, r: Re, t: seq<byte>, i: nat, j: nat) returns (ws: seq<seq<byte>>)
    requires i <= j <= |t| && Iter(f, r, t, i, j)
    ensures Flat(ws) == t[i..j] && forall x | x in ws :: Lang(f, r, x)
    decreases r, 1, j - i
  {
    if i == j {
      ws := [];
    } else {
      var m: nat :| i < m <= j && M(f, r, t, i, m) && Iter(f, r, t, m, j);
      PositionsAreWords(f, r, t, i, m);
      var rest := IterToWords(f, r, t, m, j);
      ws := [t[i..m]] + rest;
      FlatCons(t[i..m], rest);
      assert t[i..m] + t[m..j] == t[i..j];
    }
  }

  lemma {:induction false} WordsToIter(f: Flags, r: Re, t: seq<byte>, i: nat, j: nat, ws: seq<seq<byte>>)
    requires i <= j <= |t| && Flat(ws) == t[i..j] && forall x | x in ws :: Lang(f, r, x)
    ensures Iter(f, r, t, i, j)
    decreases r, 1, |ws|
  {
    if ws != [] {
      var m := i + |ws[0]|;
      assert t[i..m] == t[i..j][..|ws[0]|] == ws[0];
      assert t[m..j] == t[i..j][|ws[0]|..] == Flat(ws[1..]);
      PositionsAreWords(f, r, t, i, m);
      WordsToIter(f, r, t, m, j, ws[1..]);
      IterCons(f, r, t, i, m, j);
    }
  }

  lemma FlatOne(ws: seq<seq<byte>>)
    requires |ws| <= 1
    ensures Flat(ws) == if ws == [] then [] else ws[0]
  {
    if |ws| == 1 {
      assert Flat(ws) == ws[0] + Flat(ws[1..]) == ws[0];
    }
  }

  /** The position relation is membership of the slice in the language. */
  lemma {:induction false} PositionsAreWords(f: Flags, r: Re, t: seq<byte>, i: nat, j: nat)
    requires i <= j <= |t|
    ensures M(f, r, t, i, j) <==> Lang(f, r, t[i..j])
    decreases r, 0, 0
  {
    match r
    case Group(_, _, body) => PositionsAreWords(f, body, t, i, j);
    case Alt(a, b) =>
      PositionsAreWords(f, a, t, i, j);
      PositionsAreWords(f, b, t, i, j);
    case Cat(a, b) =>
      forall m: nat | i <= m <= j
        ensures M(f, a, t, i, m) <==> Lang(f, a, t[i..j][..m - i])
        ensures M(f, b, t, m, j) <==> Lang(f, b, t[i..j][m - i..])
      {
        assert t[i..j][..m - i] == t[i..m] && t[i..j][m - i..] == t[m..j];
        PositionsAreWords(f, a, t, i, m);
        PositionsAreWords(f, b, t, m, j);
      }
      if Lang(f, r, t[i..j]) {
        var k :| 0 <= k <= j - i && Lang(f, a, t[i..j][..k]) && Lang(f, b, t[i..j][k..]);
        assert M(f, a, t, i, i + k) && M(f, b, t, i + k, j);
      }
    case Rep(body, ops) =>
      if M(f, r, t, i, j) { RepToWords(f, body, ops, t, i, j); }
      if Lang(f, r, t[i..j]) { WordsToRep(f, body, ops, t, i, j); }
    case _ =>
  }

  lemma {:induction false} WordsInRep(f: Flags, body: Re, ops: seq<Op>, ws: seq<seq<byte>>)
    requires (forall x | x in ws :: Lang(f, body, x)) && (ZeroOk(ops) || |ws| >= 1) && (ManyOk(ops) || |ws| <= 1)
    ensures Lang(f, Rep(body, ops), Flat(ws))
  {
  }

  lemma {:induction false} RepToWords(f: Flags, body: Re, ops: seq<Op>, t: seq<byte>, i: nat, j: nat)
    requires i <= j <= |t| && M(f, Rep(body, ops), t, i, j)
    ensures Lang(f, Rep(body, ops), t[i..j])
    decreases body, 2, 0
  {
    hide Flat, Iter, Lang;
    var ws: seq<seq<byte>> := [];
    if !ManyOk(ops) {
      FlatOne([]);
      if !(ZeroOk(ops) && i == j) {
        ws := [t[i..j]];
        FlatOne(ws);
        PositionsAreWords(f, body, t, i, j);
      }
    } else if ZeroOk(ops) {
      ws := IterToWords(f, body, t, i, j);
    } else {
      var m: nat :| i <= m <= j && M(f, body, t, i, m) && Iter(f, body, t, m, j);
      PositionsAreWords(f, body, t, i, m);
      var rest := IterToWords(f, body, t, m, j);
      ws := [t[i..m]] + rest;
      FlatCons(t[i..m], rest);
      assert t[i..m] + t[m..j] == t[i..j];
    }
    WordsInRep(f, body, ops, ws);
  }

  lemma {:induction false} WordsToRep(f: Flags, body: Re, ops: seq<Op>, t: seq<byte>, i: nat, j: nat)
    requires i <= j <= |t| && Lang(f, Rep(body, ops), t[i..j])
    ensures M(f, Rep(body, ops), t, i, j)
    decreases body, 2, 0
  {
    var ws: seq<seq<byte>> :|
      && Flat(ws) == t[i..j]
      && (forall x | x in ws :: Lang(f, body, x))
      && (ZeroOk(ops) || |ws| >= 1)
      && (ManyOk(ops) || |ws| <= 1);
    if !ManyOk(ops) {
      FlatOne(ws);
      PositionsAreWords(f, body, t, i, j);
    } else if ZeroOk(ops) {
      WordsToIter(f, body, t, i, j, ws);
    } else {
      var m := i + |ws[0]|;
      assert t[i..m] == t[i..j][..|ws[0]|] == ws[0];
      assert t[m..j] == t[i..j][|ws[0]|..] == Flat(ws[1..]);
      PositionsAreWords(f, body, t, i, m);
      WordsToIter(f, body, t, m, j, ws[1..]);
    }
  }

  // ---- Shape of the patterns that the compiler produces ----

  function GroupCount(r: Re): nat {
    match r
    case Group(_, _, body) => 1 + GroupCount(body)
    case Rep(body, _) => GroupCount(body)
    case Interval(body, _, _) => GroupCount(body)
    case Cat(a, b) => GroupCount(a) + GroupCount(b)
    case Alt(a, b) => GroupCount(a) + GroupCount(b)
    case _ => 0
  }

  /** Groups are numbered from `g` in the order of their open parentheses, and each records how many it encloses. */
  predicate Numbered(r: Re, g: nat) {
    match r
    case Group(n, inner, body) => n == g && inner == GroupCount(body) && Numbered(body, g + 1)
    case Rep(body, _) => Numbered(body, g)
    case Interval(body, _, _) => Numbered(body, g)
    case Cat(a, b) => Numbered(a, g) && Numbered(b, g + GroupCount(a))
    case Alt(a, b) => Numbered(a, g) && Numbered(b, g + GroupCount(a))
    case _ => true
  }

  /** Alternatives at the top, then a concatenation of items. */
  predicate Shaped(r: Re)
    decreases r, 2
  {
    if r.Alt? then ShapedCat(r.a) && Shaped(r.b) else ShapedCat(r)
  }

  predicate ShapedCat(r: Re)
    decreases r, 1
  {
    if r.Cat? then ShapedCat(r.a) && ShapedItem(r.b) else ShapedItem(r)
  }

  predicate ShapedItem(r: Re)
    decreases r, 0
  {
    match r
    case Eps => true
    case Skip(_) => true
    case Lit(s) => 1 <= |s| <= 255
    case Any => true
    case Set(_, bits) => |bits| <= 32
    case Group(_, _, body) => Shaped(body)
    case Rep(body, ops) => ops != [] && ShapedItem(body) && Repeatable(body)
    case Interval(body, _, hi) => ShapedItem(body) && hi <= 32767
    case Cat(_, _) => false
    case Alt(_, _) => false
  }

  /** What a run of repetition characters can follow: one character, '.', a set, a group or an interval. */
  predicate Repeatable(r: Re) {
    match r
    case Lit(s) => |s| == 1
    case Any => true
    case Set(_, _) => true
    case Group(_, _, _) => true
    case Interval(_, _, _) => true
    case _ => false
  }

  predicate HasInterval(r: Re) {
    match r
    case Group(_, _, body) => HasInterval(body)
    case Rep(body, _) => HasInterval(body)
    case Interval(_, _, _) => true
    case Cat(a, b) => HasInterval(a) || HasInterval(b)
    case Alt(a, b) => HasInterval(a) || HasInterval(b)
    case _ => false
  }

  /** Byte counts of literals and bitmaps fit their one-byte fields. */
  predicate Sized(r: Re) {
    match r
    case Lit(s) => 1 <= |s| <= 255
    case Set(_, bits) => |bits| <= 32
    case Group(_, _, body) => Sized(body)
    case Rep(body, _) => Sized(body)
    case Interval(body, _, _) => Sized(body)
    case Cat(a, b) => Sized(a) && Sized(b)
    case Alt(a, b) => Sized(a) && Sized(b)
    case _ => true
  }

  /** The fragment whose matching is modelled: no intervals, and repetition only of single atoms. */
  predicate Simple(r: Re) {
    match r
    case Lit(s) => 1 <= |s| <= 255
    case Set(_, bits) => |bits| <= 32
    case Group(_, _, body) => Simple(body)
    case Rep(body, ops) => ops != [] && Repeatable(body) && Simple(body)
    case Interval(_, _, _) => false
    case Cat(a, b) => Simple(a) && Simple(b)
    case Alt(a, b) => Simple(a) && Simple(b)
    case _ => true
  }

  lemma ShapedParts(r: Re)
    ensures Shaped(r) || ShapedCat(r) || ShapedItem(r) ==> Sized(r)
    ensures (Shaped(r) || ShapedCat(r) || ShapedItem(r)) && !HasInterval(r) ==> Simple(r)
  {
    assert !r.Alt? ==> (Shaped(r) <==> ShapedCat(r));
    assert !r.Cat? ==> (ShapedCat(r) <==> ShapedItem(r));
    match r
    case Group(_, _, body) => ShapedParts(body);
    case Rep(body, _) => ShapedParts(body);
    case Interval(body, _, _) => ShapedParts(body);
    case Cat(a, b) => ShapedParts(a); ShapedParts(b);
    case Alt(a, b) => ShapedParts(a); ShapedParts(b);
    case _ =>
  }

  // ---- Atoms: what is matched without any choice and can be repeated ----

  predicate Atom(r: Re) {
    r.Lit? || r.Any? || r.Set?
  }

  /** What a literal, a dot or a set consumes. */
  function Width(r: Re): nat {
    if r.Lit? then |r.s| else 1
  }

  predicate AtomHas(f: Flags, t: seq<byte>, r: Re, d: nat)
    requires d <= |t|
  {
    match r
    case Lit(s) => d + |s| <= |t| && t[d..d + |s|] == s
    case Any => d < |t| && AnyHas(f, t[d])
    case Set(neg, bits) => d < |t| && SetHas(neg, bits, t[d])
    case _ => false
  }
}
