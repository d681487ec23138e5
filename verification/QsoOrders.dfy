/** The four orders of the log and the scan for duplicates. */
module QsoOrders {
  import opened Orders
  import opened QsoDb

  const CALL: nat := 1
  const MODE: nat := 2
  const STATE: nat := 12
  const XCHG1: nat := 33

  /** The global switch between start and end times, and how a frequency is parsed. */
  datatype Setting = Setting(dateOff: bool, atof: string -> real)

  function CompareTimes(x: Setting): (Rec, Rec) -> int {
    ByString((r: Rec) => r.Get(if x.dateOff then TIME_OFF else TIME_ON))
  }

  function CompareDates(x: Setting): (Rec, Rec) -> int {
    ByString((r: Rec) => r.Get(if x.dateOff then QSO_DATE_OFF else QSO_DATE))
  }

  function CompareCalls(): (Rec, Rec) -> int {
    ByString((r: Rec) => r.Get(CALL))
  }

  function CompareModes(): (Rec, Rec) -> int {
    ByString((r: Rec) => r.Get(MODE))
  }

  function CompareFreqs(x: Setting): (Rec, Rec) -> int {
    ByNumber((r: Rec) => x.atof(r.Get(FREQ)))
  }

  datatype Order = Date | Mode | Call | Freq

  /** `comparebydate`, `comparebymode`, `comparebycall` and `comparebyfreq`; `reverse` exchanges the records. */
  function CompareBy(o: Order, x: Setting, reverse: bool): (Rec, Rec) -> int {
    var date, time, call, mode, freq := CompareDates(x), CompareTimes(x), CompareCalls(), CompareModes(), CompareFreqs(x);
    var c :=
      match o
      case Date => ThenBy(date, ThenBy(time, ThenBy(call, ThenBy(mode, freq))))
      case Mode => ThenBy(mode, ThenBy(date, ThenBy(time, ThenBy(call, freq))))
      case Call => ThenBy(call, ThenBy(date, ThenBy(time, ThenBy(mode, freq))))
      case Freq => ThenBy(freq, ThenBy(date, ThenBy(time, ThenBy(call, mode))));
    if reverse then Reversed(c) else c
  }

  /** Date, time, call, mode and frequency are all equal. */
  predicate SameContact(x: Setting, a: Rec, b: Rec) {
    && (if x.dateOff then a.Get(QSO_DATE_OFF) == b.Get(QSO_DATE_OFF) && a.Get(TIME_OFF) == b.Get(TIME_OFF)
        else a.Get(QSO_DATE) == b.Get(QSO_DATE) && a.Get(TIME_ON) == b.Get(TIME_ON))
    && a.Get(CALL) == b.Get(CALL) && a.Get(MODE) == b.Get(MODE) && x.atof(a.Get(FREQ)) == x.atof(b.Get(FREQ))
  }

  /** Every order is a total preorder, and all of them tie on the same pairs of records. */
  lemma {:induction false} OrdersArePreorders(o: Order, x: Setting, reverse: bool)
    ensures Preorder(CompareBy(o, x, reverse))
    ensures forall a, b :: CompareBy(o, x, reverse)(a, b) == 0 <==> SameContact(x, a, b)
  {
    hide StrCmp;
    var date, time, call, mode, freq := CompareDates(x), CompareTimes(x), CompareCalls(), CompareModes(), CompareFreqs(x);
    PartsArePreorders(x);
    var c := CompareBy(o, x, false);
    match o {
      case Date => ChainOfFive(date, time, call, mode, freq);
      case Mode => ChainOfFive(mode, date, time, call, freq);
      case Call => ChainOfFive(call, date, time, mode, freq);
      case Freq => ChainOfFive(freq, date, time, call, mode);
    }
    ReversedPreorder(c);
    forall a, b ensures CompareBy(o, x, reverse)(a, b) == 0 <==> SameContact(x, a, b) {
      TiesOf(x, a, b);
      Mirror(c, a, b);
    }
  }

  // ---- What the orders sort by ----

  function DateOf(x: Setting, r: Rec): string {
    r.Get(if x.dateOff then QSO_DATE_OFF else QSO_DATE)
  }

  function TimeOf(x: Setting, r: Rec): string {
    r.Get(if x.dateOff then TIME_OFF else TIME_ON)
  }

  function FreqOf(x: Setting, r: Rec): real {
    x.atof(r.Get(FREQ))
  }

  /** The first string is not after the second, and if they are equal, `rest` decides. */
  ghost predicate Then(s: string, t: string, rest: bool) {
    !Precedes(t, s) && (s == t ==> rest)
  }

  lemma {:induction false} ThenMeans(s: string, t: string, c: int)
    ensures (if StrCmp(s, t) != 0 then StrCmp(s, t) else c) <= 0 <==> Then(s, t, c <= 0)
  {
    StrCmpMirror(s, t);
    StrCmpMeans(s, t);
    hide StrCmp, Precedes;
  }

  /** Of two records, the one that comes first has the earlier date; for equal dates the earlier time; then come call, mode
      and frequency. */
  ghost predicate DateLine(x: Setting, a: Rec, b: Rec) {
    Then(DateOf(x, a), DateOf(x, b), Then(TimeOf(x, a), TimeOf(x, b),
      Then(a.Get(CALL), b.Get(CALL), Then(a.Get(MODE), b.Get(MODE), FreqOf(x, a) <= FreqOf(x, b)))))
  }

  ghost predicate ModeLine(x: Setting, a: Rec, b: Rec) {
    Then(a.Get(MODE), b.Get(MODE), Then(DateOf(x, a), DateOf(x, b),
      Then(TimeOf(x, a), TimeOf(x, b), Then(a.Get(CALL), b.Get(CALL), FreqOf(x, a) <= FreqOf(x, b)))))
  }

  ghost predicate CallLine(x: Setting, a: Rec, b: Rec) {
    Then(a.Get(CALL), b.Get(CALL), Then(DateOf(x, a), DateOf(x, b),
      Then(TimeOf(x, a), TimeOf(x, b), Then(a.Get(MODE), b.Get(MODE), FreqOf(x, a) <= FreqOf(x, b)))))
  }

  ghost predicate FreqLine(x: Setting, a: Rec, b: Rec) {
    FreqOf(x, a) < FreqOf(x, b) || (FreqOf(x, a) == FreqOf(x, b) &&
      Then(DateOf(x, a), DateOf(x, b), Then(TimeOf(x, a), TimeOf(x, b),
        Then(a.Get(CALL), b.Get(CALL), Then(a.Get(MODE), b.Get(MODE), true)))))
  }

  function OrElse(c: int, d: int): int {
    if c != 0 then c else d
  }

  lemma {:induction false} PartsMean(x: Setting, a: Rec, b: Rec, rest: int)
    ensures OrElse(CompareDates(x)(a, b), rest) <= 0 <==> Then(DateOf(x, a), DateOf(x, b), rest <= 0)
    ensures OrElse(CompareTimes(x)(a, b), rest) <= 0 <==> Then(TimeOf(x, a), TimeOf(x, b), rest <= 0)
    ensures OrElse(CompareCalls()(a, b), rest) <= 0 <==> Then(a.Get(CALL), b.Get(CALL), rest <= 0)
    ensures OrElse(CompareModes()(a, b), rest) <= 0 <==> Then(a.Get(MODE), b.Get(MODE), rest <= 0)
  {
    hide StrCmp, Then;
    ThenMeans(DateOf(x, a), DateOf(x, b), rest);
    ThenMeans(TimeOf(x, a), TimeOf(x, b), rest);
    ThenMeans(a.Get(CALL), b.Get(CALL), rest);
    ThenMeans(a.Get(MODE), b.Get(MODE), rest);
  }

  /** Each of the orders by its keys, the first one first. */
  lemma {:induction false} LinesMean(x: Setting, a: Rec, b: Rec)
    ensures CompareBy(Date, x, false)(a, b) <= 0 <==> DateLine(x, a, b)
    ensures CompareBy(Mode, x, false)(a, b) <= 0 <==> ModeLine(x, a, b)
    ensures CompareBy(Call, x, false)(a, b) <= 0 <==> CallLine(x, a, b)
    ensures CompareBy(Freq, x, false)(a, b) <= 0 <==> FreqLine(x, a, b)
  {
    var date, time, call := CompareDates(x)(a, b), CompareTimes(x)(a, b), CompareCalls()(a, b);
    var mode, freq := CompareModes()(a, b), CompareFreqs(x)(a, b);
    assert CompareBy(Date, x, false)(a, b) == OrElse(date, OrElse(time, OrElse(call, OrElse(mode, freq))));
    assert CompareBy(Mode, x, false)(a, b) == OrElse(mode, OrElse(date, OrElse(time, OrElse(call, freq))));
    assert CompareBy(Call, x, false)(a, b) == OrElse(call, OrElse(date, OrElse(time, OrElse(mode, freq))));
    assert CompareBy(Freq, x, false)(a, b) == OrElse(freq, OrElse(date, OrElse(time, OrElse(call, OrElse(mode, 0)))));
    assert (freq <= 0 <==> FreqOf(x, a) <= FreqOf(x, b)) && (freq == 0 <==> FreqOf(x, a) == FreqOf(x, b));
    hide StrCmp, Then, CompareBy, CompareDates, CompareTimes, CompareCalls, CompareModes, CompareFreqs;
    PartsMean(x, a, b, freq);
    PartsMean(x, a, b, 0);
    PartsMean(x, a, b, OrElse(mode, freq));
    PartsMean(x, a, b, OrElse(call, freq));
    PartsMean(x, a, b, OrElse(mode, 0));
    PartsMean(x, a, b, OrElse(call, OrElse(mode, freq)));
    PartsMean(x, a, b, OrElse(time, OrElse(call, OrElse(mode, freq))));
    PartsMean(x, a, b, OrElse(time, OrElse(call, freq)));
    PartsMean(x, a, b, OrElse(date, OrElse(time, OrElse(call, freq))));
    PartsMean(x, a, b, OrElse(time, OrElse(mode, freq)));
    PartsMean(x, a, b, OrElse(date, OrElse(time, OrElse(mode, freq))));
    PartsMean(x, a, b, OrElse(call, OrElse(mode, 0)));
    PartsMean(x, a, b, OrElse(time, OrElse(call, OrElse(mode, 0))));
  }

  /** So a log is in one of the orders exactly if every two records stand by its keys; reversed, the other way round. */
  lemma {:induction false} SortedByDate(t: seq<Rec>, x: Setting)
    ensures Ordered(t, CompareBy(Date, x, false)) <==> forall i, j | 0 <= i <= j < |t| :: DateLine(x, t[i], t[j])
    ensures Ordered(t, CompareBy(Date, x, true)) <==> forall i, j | 0 <= i <= j < |t| :: DateLine(x, t[j], t[i])
  {
    hide CompareBy, DateLine;
    forall a, b ensures CompareBy(Date, x, true)(a, b) == CompareBy(Date, x, false)(b, a) { ReverseFlag(Date, x); }
    forall a, b ensures CompareBy(Date, x, false)(a, b) <= 0 <==> DateLine(x, a, b) { LinesMean(x, a, b); }
  }

  lemma {:induction false} SortedByMode(t: seq<Rec>, x: Setting)
    ensures Ordered(t, CompareBy(Mode, x, false)) <==> forall i, j | 0 <= i <= j < |t| :: ModeLine(x, t[i], t[j])
    ensures Ordered(t, CompareBy(Mode, x, true)) <==> forall i, j | 0 <= i <= j < |t| :: ModeLine(x, t[j], t[i])
  {
    hide CompareBy, ModeLine;
    forall a, b ensures CompareBy(Mode, x, true)(a, b) == CompareBy(Mode, x, false)(b, a) { ReverseFlag(Mode, x); }
    forall a, b ensures CompareBy(Mode, x, false)(a, b) <= 0 <==> ModeLine(x, a, b) { LinesMean(x, a, b); }
  }

  lemma {:induction false} SortedByCall(t: seq<Rec>, x: Setting)
    ensures Ordered(t, CompareBy(Call, x, false)) <==> forall i, j | 0 <= i <= j < |t| :: CallLine(x, t[i], t[j])
    ensures Ordered(t, CompareBy(Call, x, true)) <==> forall i, j | 0 <= i <= j < |t| :: CallLine(x, t[j], t[i])
  {
    hide CompareBy, CallLine;
    forall a, b ensures CompareBy(Call, x, true)(a, b) == CompareBy(Call, x, false)(b, a) { ReverseFlag(Call, x); }
    forall a, b ensures CompareBy(Call, x, false)(a, b) <= 0 <==> CallLine(x, a, b) { LinesMean(x, a, b); }
  }

  lemma {:induction false} SortedByFreq(t: seq<Rec>, x: Setting)
    ensures Ordered(t, CompareBy(Freq, x, false)) <==> forall i, j | 0 <= i <= j < |t| :: FreqLine(x, t[i], t[j])
    ensures Ordered(t, CompareBy(Freq, x, true)) <==> forall i, j | 0 <= i <= j < |t| :: FreqLine(x, t[j], t[i])
  {
    hide CompareBy, FreqLine;
    forall a, b ensures CompareBy(Freq, x, true)(a, b) == CompareBy(Freq, x, false)(b, a) { ReverseFlag(Freq, x); }
    forall a, b ensures CompareBy(Freq, x, false)(a, b) <= 0 <==> FreqLine(x, a, b) { LinesMean(x, a, b); }
  }

  lemma PartsArePreorders(x: Setting)
    ensures Preorder(CompareDates(x)) && Preorder(CompareTimes(x)) && Preorder(CompareCalls())
    ensures Preorder(CompareModes()) && Preorder(CompareFreqs(x))
  {
    ByStringPreorder((r: Rec) => r.Get(if x.dateOff then TIME_OFF else TIME_ON));
    ByStringPreorder((r: Rec) => r.Get(if x.dateOff then QSO_DATE_OFF else QSO_DATE));
    ByStringPreorder((r: Rec) => r.Get(CALL));
    ByStringPreorder((r: Rec) => r.Get(MODE));
    ByNumberPreorder((r: Rec) => x.atof(r.Get(FREQ)));
  }

  lemma ChainOfFive<T(!new)>(a: (T, T) -> int, b: (T, T) -> int, c: (T, T) -> int, d: (T, T) -> int, e: (T, T) -> int)
    requires Preorder(a) && Preorder(b) && Preorder(c) && Preorder(d) && Preorder(e)
    ensures Preorder(ThenBy(a, ThenBy(b, ThenBy(c, ThenBy(d, e)))))
  {
    ThenByPreorder(d, e);
    ThenByPreorder(c, ThenBy(d, e));
    ThenByPreorder(b, ThenBy(c, ThenBy(d, e)));
    ThenByPreorder(a, ThenBy(b, ThenBy(c, ThenBy(d, e))));
  }

  lemma TiesOf(x: Setting, a: Rec, b: Rec)
    ensures SameContact(x, a, b) <==>
      && CompareDates(x)(a, b) == 0 && CompareTimes(x)(a, b) == 0 && CompareCalls()(a, b) == 0
      && CompareModes()(a, b) == 0 && CompareFreqs(x)(a, b) == 0
  {
    StrCmpMirror(a.Get(TIME_OFF), b.Get(TIME_OFF));
    StrCmpMirror(a.Get(TIME_ON), b.Get(TIME_ON));
    StrCmpMirror(a.Get(QSO_DATE), b.Get(QSO_DATE));
    StrCmpMirror(a.Get(QSO_DATE_OFF), b.Get(QSO_DATE_OFF));
    StrCmpMirror(a.Get(CALL), b.Get(CALL));
    StrCmpMirror(a.Get(MODE), b.Get(MODE));
  }

  /** What `qsort` makes of the records: they are rearranged into the order. */
  ghost predicate SortedFrom(s: seq<Rec>, t: seq<Rec>, o: Order, x: Setting, reverse: bool) {
    multiset(s) == multiset(t) && Ordered(t, CompareBy(o, x, reverse))
  }

  /** A sort, by one of the orders, with the settings of that moment. */
  datatype SortStep = SortStep(o: Order, x: Setting, reverse: bool)

  /** The records can have come from `s` to `t` by the sorts `steps`. */
  ghost predicate Resorted(s: seq<Rec>, t: seq<Rec>, steps: seq<SortStep>)
    decreases |steps|
  {
    if steps == [] then t == s
    else
      var last := steps[|steps| - 1];
      exists m: seq<Rec> :: Resorted(s, m, steps[..|steps| - 1]) && SortedFrom(m, t, last.o, last.x, last.reverse)
  }

  lemma {:induction false} ResortedKeepsRecords(s: seq<Rec>, t: seq<Rec>, steps: seq<SortStep>)
    requires Resorted(s, t, steps)
    ensures multiset(s) == multiset(t)
    decreases |steps|
  {
    if steps != [] {
      var last := steps[|steps| - 1];
      var m: seq<Rec> :| Resorted(s, m, steps[..|steps| - 1]) && SortedFrom(m, t, last.o, last.x, last.reverse);
      ResortedKeepsRecords(s, m, steps[..|steps| - 1]);
    }
  }

  /** Any series of sorts gives the same as its last one alone, except that records of the same contact may have changed
      places. */
  lemma {:induction false} OnlyTiesMove(s: seq<Rec>, t: seq<Rec>, u: seq<Rec>, steps: seq<SortStep>)
    requires steps != [] && Resorted(s, t, steps)
    requires var last := steps[|steps| - 1]; SortedFrom(s, u, last.o, last.x, last.reverse)
    ensures |t| == |u| == |s| && forall i | 0 <= i < |s| :: SameContact(steps[|steps| - 1].x, t[i], u[i])
  {
    hide StrCmp, CompareBy, SameContact;
    var last := steps[|steps| - 1];
    var c := CompareBy(last.o, last.x, last.reverse);
    ResortedKeepsRecords(s, t, steps);
    OrdersArePreorders(last.o, last.x, last.reverse);
    assert |s| == |multiset(s)| == |multiset(u)| == |u|;
    SortedUpToTies(t, u, c);
  }

  /** Sorting in reverse gives the mirror image of sorting forward, up to records of the same contact. */
  lemma {:induction false} ReverseIsMirror(s: seq<Rec>, t: seq<Rec>, u: seq<Rec>, o: Order, x: Setting)
    requires SortedFrom(s, t, o, x, false) && SortedFrom(s, u, o, x, true)
    ensures |t| == |u| == |s| && forall i | 0 <= i < |s| :: SameContact(x, t[i], u[|s| - 1 - i])
  {
    hide StrCmp, SameContact, CompareBy, Reversed, Preorder, Ordered;
    var c := CompareBy(o, x, false);
    OrdersArePreorders(o, x, false);
    assert CompareBy(o, x, true) == Reversed(c) by { ReverseFlag(o, x); }
    ReversedIsMirrored(u, c);
    BackwardsKeeps(u);
    SortedUpToTies(t, Backwards(u), c);
  }

  lemma ReverseFlag(o: Order, x: Setting)
    ensures CompareBy(o, x, true) == Reversed(CompareBy(o, x, false))
  {
  }

  lemma {:induction false} BackwardsKeeps<T>(s: seq<T>)
    ensures multiset(Backwards(s)) == multiset(s)
    decreases |s|
  {
    if s != [] {
      var n := |s| - 1;
      BackwardsKeeps(s[..n]);
      assert Backwards(s) == [s[n]] + Backwards(s[..n]);
      assert s == s[..n] + [s[n]];
    } else {
      assert Backwards(s) == [];
    }
  }
}
