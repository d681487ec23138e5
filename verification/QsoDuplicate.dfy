/** `cQsoDb::duplicate`: is a contact already in the log? */
module QsoDuplicate {
  import opened QsoDb
  import opened QsoOrders
  import opened AdifTable

  /** What is looked for, and which fields must agree. `near` is the test of date and time, and `whole` the integer part
      of a number in text form. */
  datatype Query = Query(
    call: string, chkFreq: bool, f1: int, chkState: bool, state: string, chkMode: bool, mode: string,
    chkXchg: bool, xchg: string, chkDateTime: bool, near: Rec -> bool, whole: string -> int)

  /** `strcasecmp`. */
  predicate SameCall(q: Query, r: Rec) {
    ToLower(r.Get(CALL)) == ToLower(q.call)
  }

  /** Both empty, or `strcasestr` finds the text in the field. */
  predicate TextIn(field: string, text: string) {
    (field == "" && text == "") || FirstFrom(ToLower(field), 0, ToLower(text)) >= 0
  }

  predicate FullMatch(q: Query, r: Rec) {
    && SameCall(q, r)
    && (q.chkFreq ==> q.f1 == q.whole(r.Get(FREQ)))
    && (q.chkState ==> TextIn(r.Get(STATE), q.state))
    && (q.chkMode ==> TextIn(r.Get(MODE), q.mode))
    && (q.chkXchg ==> TextIn(r.Get(XCHG1), q.xchg))
    && (q.chkDateTime ==> q.near(r))
  }

  // ---- What the tests look for ----

  /** The text stands in the field at place `k`, in small or capital letters. */
  predicate StandsAt(field: string, text: string, k: nat) {
    k + |text| <= |field| && EqualIgnoringCase(field[k..k + |text|], text)
  }

  /** The text is looked for in the field, not the field in the text. */
  lemma {:induction false} TextInMeans(field: string, text: string)
    ensures TextIn(field, text) <==> exists k: nat :: StandsAt(field, text, k)
  {
    if field == "" && text == "" { assert StandsAt(field, text, 0); }
    forall k: nat
      ensures OccursAt(ToLower(field), k, ToLower(text)) <==> StandsAt(field, text, k)
    {
      if k + |text| <= |field| {
        assert ToLower(field)[k..k + |text|] == ToLower(field[k..k + |text|]);
        LowerMeans(field[k..k + |text|], text);
      }
    }
    hide StandsAt;
    var k := FirstFrom(ToLower(field), 0, ToLower(text));
  }

  /** The fields that are compared, by their names in the log's format. */
  lemma FieldsByName()
    ensures Name(CALL) == "CALL" && Name(FREQ) == "FREQ" && Name(STATE) == "STATE" && Name(MODE) == "MODE"
    ensures Name(XCHG1) == "SRX_STRING"
  {
  }

  lemma {:induction false} FullMatchMeans(q: Query, r: Rec)
    ensures SameCall(q, r) <==> EqualIgnoringCase(r.Get(CALL), q.call)
    ensures FullMatch(q, r) <==>
      && EqualIgnoringCase(r.Get(CALL), q.call)
      && (q.chkFreq ==> q.whole(r.Get(FREQ)) == q.f1)
      && (q.chkState ==> exists k: nat :: StandsAt(r.Get(STATE), q.state, k))
      && (q.chkMode ==> exists k: nat :: StandsAt(r.Get(MODE), q.mode, k))
      && (q.chkXchg ==> exists k: nat :: StandsAt(r.Get(XCHG1), q.xchg, k))
      && (q.chkDateTime ==> q.near(r))
  {
    hide TextIn, EqualIgnoringCase, ToLower;
    LowerMeans(r.Get(CALL), q.call);
    TextInMeans(r.Get(STATE), q.state);
    TextInMeans(r.Get(MODE), q.mode);
    TextInMeans(r.Get(XCHG1), q.xchg);
  }

  /** 0: the call is not in the log; 1: a full duplicate; 2: only the call is. */
  ghost function Verdict(q: Query, s: seq<Rec>): int {
    if exists r :: r in s && FullMatch(q, r) then 1
    else if exists r :: r in s && SameCall(q, r) then 2
    else 0
  }

  /** The verdict does not depend on the order of the records. */
  lemma VerdictOfPermutation(q: Query, s: seq<Rec>, t: seq<Rec>)
    requires multiset(s) == multiset(t)
    ensures Verdict(q, s) == Verdict(q, t)
  {
    assert forall r :: r in s <==> r in multiset(s);
    assert forall r :: r in t <==> r in multiset(t);
  }

  /** The tests on a record whose call matches, one after the other. */
  method Matches(q: Query, r: Rec) returns (b: bool)
    requires SameCall(q, r)
    ensures b == FullMatch(q, r)
  {
    var freq, state, mode, xchg, dtime := false, false, false, false, false;
    if q.chkFreq { freq := q.f1 == q.whole(r.Get(FREQ)); }
    if q.chkState { state := TextIn(r.Get(STATE), q.state); }
    if q.chkMode { mode := TextIn(r.Get(MODE), q.mode); }
    if q.chkXchg { xchg := TextIn(r.Get(XCHG1), q.xchg); }
    if q.chkDateTime { dtime := q.near(r); }
    b := (!q.chkFreq || freq) && (!q.chkState || state) && (!q.chkMode || mode)
      && (!q.chkXchg || xchg) && (!q.chkDateTime || dtime);
  }

  /** `i` comes before `j` in the scan. */
  predicate Before(reverse: bool, i: int, j: int) {
    if reverse then j < i else i < j
  }

  /** The record reported: the first full match in scan order, or else the last record scanned with the same call. */
  ghost predicate Reported(q: Query, s: seq<Rec>, reverse: bool, verdict: int, at: int) {
    match verdict
    case 1 =>
      && 0 <= at < |s| && FullMatch(q, s[at])
      && forall i | 0 <= i < |s| && Before(reverse, i, at) :: !FullMatch(q, s[i])
    case 2 =>
      && 0 <= at < |s| && SameCall(q, s[at])
      && forall i | 0 <= i < |s| && Before(reverse, at, i) :: !SameCall(q, s[i])
    case _ => at == -1
  }

  method Duplicate(db: Database, q: Query, reverse: bool) returns (isdup: int, duprecnbr: int)
    requires db.Valid()
    ensures isdup == Verdict(q, db.Records()) && Reported(q, db.Records(), reverse, isdup, duprecnbr)
  {
    hide FullMatch, SameCall;
    isdup, duprecnbr := 0, -1;
    ghost var s := db.Records();
    if reverse {
      var i := db.nbrrecs - 1;
      while i >= 0
        invariant -1 <= i < |s| && isdup != 1 && Scanned(q, s, i + 1, |s|, isdup, duprecnbr)
        invariant forall k | i < k < |s| && k < duprecnbr :: !SameCall(q, s[k])
      {
        FullNeedsCall(q, s[i]);
        var same := CallAgrees(q, db.qsorec[i]);
        if same {
          isdup, duprecnbr := 2, i;
          var full := Matches(q, db.qsorec[i]);
          if full {
            isdup := 1;
            assert s[i] in s;
            return;
          }
        }
        i := i - 1;
      }
    } else {
      for i := 0 to db.nbrrecs
        invariant isdup != 1 && Scanned(q, s, 0, i, isdup, duprecnbr)
        invariant forall k | 0 <= k < i && k > duprecnbr :: !SameCall(q, s[k])
      {
        FullNeedsCall(q, s[i]);
        var same := CallAgrees(q, db.qsorec[i]);
        if same {
          isdup, duprecnbr := 2, i;
          var full := Matches(q, db.qsorec[i]);
          if full {
            isdup := 1;
            assert s[i] in s;
            return;
          }
        }
      }
    }
    NothingFull(q, s, isdup, duprecnbr);
  }

  lemma FullNeedsCall(q: Query, r: Rec)
    ensures FullMatch(q, r) ==> SameCall(q, r)
  {
  }

  method CallAgrees(q: Query, r: Rec) returns (b: bool)
    ensures b == SameCall(q, r)
  {
    b := ToLower(r.Get(CALL)) == ToLower(q.call);
  }

  /** After scanning the records from `lo` up to `hi` without a full match. */
  ghost predicate Scanned(q: Query, s: seq<Rec>, lo: int, hi: int, isdup: int, at: int)
    requires 0 <= lo && hi <= |s|
  {
    && (forall k | lo <= k < hi :: !FullMatch(q, s[k]))
    && (if isdup == 0 then at == -1 && forall k | lo <= k < hi :: !SameCall(q, s[k])
        else isdup == 2 && lo <= at < hi && SameCall(q, s[at]))
  }

  lemma NothingFull(q: Query, s: seq<Rec>, isdup: int, at: int)
    requires isdup != 1 && Scanned(q, s, 0, |s|, isdup, at)
    ensures isdup == Verdict(q, s)
  {
    hide FullMatch, SameCall;
    if isdup == 2 { assert s[at] in s; }
  }
}
