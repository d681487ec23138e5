/** `cQsoDb`: the log records in a growable array. Slots past the record count are blank, which `newrec` relies on. */
module QsoDb {
  import opened Helpers

  /** The fields of a record, by their number. */
  datatype Rec = Rec(fields: seq<string>) {
    /** `getField`: empty for a number that no field has. */
    function Get(i: int): string {
      if 0 <= i < |fields| then fields[i] else ""
    }

    /** `putField`: ignored for a number that no field has. */
    function Put(i: int, value: string): Rec {
      if 0 <= i < |fields| then Rec(fields[i := value]) else this
    }
  }

  const NUMFIELDS: nat := 56

  const FREQ: nat := 0
  const BAND: nat := 22
  const QSO_DATE: nat := 5
  const QSO_DATE_OFF: nat := 6
  const TIME_OFF: nat := 7
  const TIME_ON: nat := 8

  const MAXRECS: nat := 100000
  const INCRRECS: nat := 10000

  const BLANK := Rec(Blanks(NUMFIELDS))

  // ---- Completing a record ----

  /** The tables that name the band of a frequency and the frequency of a band. */
  datatype Bands = Bands(freq: string -> string, name: string -> string)

  function ToLower(s: string): string {
    seq(|s|, i requires 0 <= i < |s| => if 'A' <= s[i] <= 'Z' then (s[i] as int + 32) as char else s[i])
  }

  /** `checkBand`: completes frequency and band from each other. */
  function CheckBand(b: Bands, r: Rec): Rec {
    if r.Get(FREQ) == "" && r.Get(BAND) != "" then
      r.Put(BAND, ToLower(r.Get(BAND))).Put(FREQ, b.freq(ToLower(r.Get(BAND))))
    else if r.Get(BAND) == "" && r.Get(FREQ) != "" then r.Put(BAND, b.name(r.Get(FREQ)))
    else r
  }

  /** One of two fields is copied to the other if only one is empty. */
  function Pair(r: Rec, i: nat, j: nat): Rec {
    if r.Get(i) == "" && r.Get(j) != "" then r.Put(i, r.Get(j))
    else if r.Get(i) != "" && r.Get(j) == "" then r.Put(j, r.Get(i))
    else r
  }

  /** `checkDateTimes`. */
  function CheckDateTimes(r: Rec): Rec {
    Pair(Pair(r, TIME_ON, TIME_OFF), QSO_DATE, QSO_DATE_OFF)
  }

  // ---- What completing does ----

  /** The same letter, small or capital, or the same character. */
  predicate SameLetter(a: char, b: char) {
    a == b || ('A' <= a <= 'Z' && b as int == a as int + 32) || ('A' <= b <= 'Z' && a as int == b as int + 32)
  }

  predicate EqualIgnoringCase(s: string, t: string) {
    |s| == |t| && forall i | 0 <= i < |s| :: SameLetter(s[i], t[i])
  }

  predicate NoCapitals(s: string) {
    forall i | 0 <= i < |s| :: !('A' <= s[i] <= 'Z')
  }

  lemma LowerMeans(s: string, t: string)
    ensures EqualIgnoringCase(s, ToLower(s)) && NoCapitals(ToLower(s))
    ensures ToLower(s) == ToLower(t) <==> EqualIgnoringCase(s, t)
  {
    if ToLower(s) == ToLower(t) {
      assert |ToLower(s)| == |s| && |ToLower(t)| == |t|;
      forall i | 0 <= i < |s| ensures SameLetter(s[i], t[i]) { assert ToLower(s)[i] == ToLower(t)[i]; }
    }
  }

  /** Frequency and band of the completed record: one of them given makes the other, by a band name in small letters. */
  ghost predicate BandCompleted(b: Bands, r: Rec, c: Rec) {
    if r.Get(FREQ) == "" && r.Get(BAND) != "" then
      && EqualIgnoringCase(c.Get(BAND), r.Get(BAND)) && NoCapitals(c.Get(BAND))
      && c.Get(FREQ) == b.freq(c.Get(BAND))
    else if r.Get(FREQ) != "" && r.Get(BAND) == "" then
      c.Get(FREQ) == r.Get(FREQ) && c.Get(BAND) == b.name(r.Get(FREQ))
    else
      c.Get(FREQ) == r.Get(FREQ) && c.Get(BAND) == r.Get(BAND)
  }

  /** Field `i` is what it was, or what its partner was if it was empty. */
  ghost predicate FilledFrom(r: Rec, c: Rec, i: nat, partner: nat) {
    c.Get(i) == if r.Get(i) != "" then r.Get(i) else r.Get(partner)
  }

  /** A new record: frequency and band, and the start and the end of the contact, are completed from each other, and all
      other fields stay. */
  ghost predicate Completed(b: Bands, r: Rec, c: Rec) {
    && BandCompleted(b, r, c)
    && FilledFrom(r, c, TIME_ON, TIME_OFF) && FilledFrom(r, c, TIME_OFF, TIME_ON)
    && FilledFrom(r, c, QSO_DATE, QSO_DATE_OFF) && FilledFrom(r, c, QSO_DATE_OFF, QSO_DATE)
    && (forall i: int | i !in {FREQ, BAND, TIME_ON, TIME_OFF, QSO_DATE, QSO_DATE_OFF} :: c.Get(i) == r.Get(i))
  }

  lemma BandIsCompleted(b: Bands, r: Rec)
    requires |r.fields| == NUMFIELDS
    ensures var c := CheckBand(b, r);
      |c.fields| == NUMFIELDS && BandCompleted(b, r, c) && forall i: int | i != FREQ && i != BAND :: c.Get(i) == r.Get(i)
  {
    LowerMeans(r.Get(BAND), r.Get(BAND));
  }

  lemma PairIsFilled(r: Rec, i: nat, j: nat)
    requires i < |r.fields| && j < |r.fields| && i != j
    ensures var c := Pair(r, i, j);
      |c.fields| == |r.fields| && FilledFrom(r, c, i, j) && FilledFrom(r, c, j, i)
      && forall k: int | k != i && k != j :: c.Get(k) == r.Get(k)
  {
  }

  lemma IsCompleted(b: Bands, r: Rec)
    requires |r.fields| == NUMFIELDS
    ensures Completed(b, r, CheckDateTimes(CheckBand(b, r)))
  {
    hide Pair, CheckBand;
    BandIsCompleted(b, r);
    PairIsFilled(CheckBand(b, r), TIME_ON, TIME_OFF);
    PairIsFilled(Pair(CheckBand(b, r), TIME_ON, TIME_OFF), QSO_DATE, QSO_DATE_OFF);
  }

  // ---- The plain sequence that the database stands for ----

  datatype Cmd =
    | Append(rec: Rec)
    | NewRec
    | Put(i: int, field: int, value: string)
    | Update(i: int, rec: Rec)
    | Delete(i: int)
    | DeleteAll

  function After(b: Bands, s: seq<Rec>, c: Cmd): seq<Rec> {
    match c
    case Append(r) => s + [CheckDateTimes(CheckBand(b, r))]
    case NewRec => s + [BLANK]
    case Put(i, f, v) => if 0 <= i < |s| then s[i := s[i].Put(f, v)] else s
    case Update(i, r) => if 0 <= i < |s| then s[i := CheckBand(b, r)] else s
    case Delete(i) => if 0 <= i < |s| then s[..i] + s[i + 1..] else s
    case DeleteAll => []
  }

  function AfterAll(b: Bands, s: seq<Rec>, cs: seq<Cmd>): seq<Rec>
    decreases |cs|
  {
    if cs == [] then s else AfterAll(b, After(b, s, cs[0]), cs[1..])
  }

  class Database {
    const bands: Bands
    var qsorec: array<Rec>
    var nbrrecs: nat

    ghost predicate Valid()
      reads this, qsorec
    {
      nbrrecs <= qsorec.Length && forall i | nbrrecs <= i < qsorec.Length :: qsorec[i] == BLANK
    }

    ghost function Records(): seq<Rec>
      requires Valid()
      reads this, qsorec
    {
      qsorec[..nbrrecs]
    }

    constructor (bands: Bands)
      ensures Valid() && fresh(qsorec) && Records() == [] && this.bands == bands
    {
      this.bands := bands;
      nbrrecs := 0;
      qsorec := new Rec[MAXRECS](_ => BLANK);
    }

    /** A copy of another database, with no spare slots. */
    constructor Copy(db: Database)
      requires db.Valid()
      ensures Valid() && fresh(qsorec) && Records() == db.Records() && bands == db.bands
    {
      bands := db.bands;
      nbrrecs := db.nbrrecs;
      qsorec := new Rec[db.nbrrecs](i requires 0 <= i < db.nbrrecs reads db, db.qsorec requires db.nbrrecs <= db.qsorec.Length => db.qsorec[i]);
      new;
      assert qsorec[..nbrrecs] == db.qsorec[..db.nbrrecs];
    }

    /** Makes room for one more record: the array grows by a fixed number of blank slots when it is full. */
    method Grow()
      requires Valid()
      modifies `qsorec
      ensures Valid() && nbrrecs < qsorec.Length && Records() == old(Records())
      ensures qsorec == old(qsorec) || (fresh(qsorec) && qsorec.Length == old(qsorec.Length) + INCRRECS)
    {
      if nbrrecs == qsorec.Length {
        var atemp := new Rec[qsorec.Length + INCRRECS](_ => BLANK);
        for i := 0 to nbrrecs
          modifies atemp
          invariant forall k | 0 <= k < i :: atemp[k] == qsorec[k]
          invariant forall k | i <= k < atemp.Length :: atemp[k] == BLANK
        {
          atemp[i] := qsorec[i];
        }
        assert atemp[..nbrrecs] == qsorec[..nbrrecs];
        qsorec := atemp;
      }
    }

    method QsoNewRec(nurec: Rec)
      requires Valid()
      modifies this, qsorec
      ensures Valid() && (qsorec == old(qsorec) || fresh(qsorec))
      ensures Records() == After(bands, old(Records()), Cmd.Append(nurec))
      ensures |nurec.fields| == NUMFIELDS ==>
        |Records()| == |old(Records())| + 1 && Completed(bands, nurec, Records()[|old(Records())|])
    {
      hide CheckBand, CheckDateTimes, Completed;
      if |nurec.fields| == NUMFIELDS { IsCompleted(bands, nurec); }
      Grow();
      qsorec[nbrrecs] := nurec;
      qsorec[nbrrecs] := CheckBand(bands, qsorec[nbrrecs]);
      qsorec[nbrrecs] := CheckDateTimes(qsorec[nbrrecs]);
      nbrrecs := nbrrecs + 1;
    }

    /** The slot of a new record, which is handed out as it is: it is blank. */
    method NewRec() returns (slot: nat)
      requires Valid()
      modifies this, qsorec
      ensures Valid() && (qsorec == old(qsorec) || fresh(qsorec))
      ensures Records() == After(bands, old(Records()), Cmd.NewRec) && slot == |old(Records())|
    {
      Grow();
      nbrrecs := nbrrecs + 1;
      slot := nbrrecs - 1;
    }

    /** `putField` on the record in a slot. */
    method PutField(i: int, field: int, value: string)
      requires Valid()
      modifies qsorec
      ensures Valid() && Records() == After(bands, old(Records()), Cmd.Put(i, field, value))
    {
      if 0 <= i < nbrrecs { qsorec[i] := qsorec[i].Put(field, value); }
    }

    method QsoUpdRec(rnbr: int, updrec: Rec)
      requires Valid()
      modifies qsorec
      ensures Valid() && Records() == After(bands, old(Records()), Update(rnbr, updrec))
      ensures 0 <= rnbr < |old(Records())| && |updrec.fields| == NUMFIELDS ==>
        |Records()| == |old(Records())| && BandCompleted(bands, updrec, Records()[rnbr])
    {
      hide CheckBand, BandCompleted;
      if |updrec.fields| == NUMFIELDS { BandIsCompleted(bands, updrec); }
      if rnbr < 0 || rnbr > nbrrecs - 1 { return; }
      qsorec[rnbr] := updrec;
      qsorec[rnbr] := CheckBand(bands, qsorec[rnbr]);
    }

    /** Moves the later records down and blanks the slot that becomes spare. */
    method QsoDelRec(rnbr: int)
      requires Valid()
      modifies `nbrrecs, qsorec
      ensures Valid() && Records() == After(bands, old(Records()), Delete(rnbr))
    {
      if rnbr < 0 || rnbr > nbrrecs - 1 { return; }
      ghost var s, n := Records(), nbrrecs;
      var i := rnbr;
      while i < nbrrecs - 1
        modifies qsorec
        invariant rnbr <= i <= nbrrecs - 1
        invariant forall k | 0 <= k < qsorec.Length ::
          qsorec[k] == if rnbr <= k < i then old(qsorec[k + 1]) else old(qsorec[k])
      {
        qsorec[i] := qsorec[i + 1];
        i := i + 1;
      }
      nbrrecs := nbrrecs - 1;
      qsorec[nbrrecs] := BLANK;
      assert qsorec[..nbrrecs] == s[..rnbr] + s[rnbr + 1..];
    }

    method DeleteRecs()
      requires Valid()
      modifies this
      ensures Valid() && fresh(qsorec) && Records() == []
    {
      nbrrecs := 0;
      qsorec := new Rec[MAXRECS](_ => BLANK);
    }

    method Do(c: Cmd)
      requires Valid()
      modifies this, qsorec
      ensures Valid() && (qsorec == old(qsorec) || fresh(qsorec)) && Records() == After(bands, old(Records()), c)
    {
      match c {
        case Append(r) => QsoNewRec(r);
        case NewRec => var slot := NewRec();
        case Put(i, f, v) => PutField(i, f, v);
        case Update(i, r) => QsoUpdRec(i, r);
        case Delete(i) => QsoDelRec(i);
        case DeleteAll => DeleteRecs();
      }
    }
  }

  lemma {:induction false} AfterOneMore(b: Bands, s: seq<Rec>, cs: seq<Cmd>, k: nat)
    requires k < |cs|
    ensures After(b, AfterAll(b, s, cs[..k]), cs[k]) == AfterAll(b, s, cs[..k + 1])
    decreases k
  {
    if k > 0 {
      assert cs[..k][1..] == cs[1..][..k - 1] && cs[..k + 1][1..] == cs[1..][..k];
      AfterOneMore(b, After(b, s, cs[0]), cs[1..], k - 1);
    }
  }

  /** Over every run, the database is the plain sequence, and every spare slot is blank. */
  method Run(bands: Bands, cs: seq<Cmd>) returns (db: Database)
    ensures db.Valid() && db.Records() == AfterAll(bands, [], cs)
  {
    db := new Database(bands);
    for k := 0 to |cs|
      invariant db.Valid() && fresh(db) && fresh(db.qsorec) && db.bands == bands
      invariant db.Records() == AfterAll(bands, [], cs[..k])
    {
      AfterOneMore(bands, [], cs, k);
      db.Do(cs[k]);
    }
    assert cs[..|cs|] == cs;
  }

  /** A record that is deleted leaves no trace: the next new record is blank, and the others are as they were. */
  lemma NewAfterDelete(b: Bands, s: seq<Rec>, i: nat)
    requires i < |s|
    ensures AfterAll(b, s, [Delete(i), NewRec]) == s[..i] + s[i + 1..] + [BLANK]
  {
    var cs := [Delete(i), NewRec];
    assert cs[1..] == [NewRec] && cs[1..][1..] == [];
    assert AfterAll(b, After(b, s, Delete(i)), [NewRec]) == After(b, After(b, s, Delete(i)), NewRec);
  }
}
