/** `cAdifIO`: the packed field table, reading a log file block by block into an accumulating buffer, and writing it. */
module AdifIo {
  import opened AdifTable
  import opened AdifText
  import opened AdifRoundTrip
  import opened AdifOther
  import opened Helpers
  import QsoDb

  // ---- The packed table ----

  /** `initfields`: the packed table, by appending names and filling up with spaces. */
  method InitFields() returns (fastlookup: string, maxlen: nat)
    ensures fastlookup == Packed(TABLE_ROWS) && maxlen == MAXLEN
  {
    hide Name;
    maxlen := 0;
    for i := 0 to TABLE_ROWS
      invariant maxlen < MAXLEN && (i > 39 ==> maxlen == MAXLEN - 1)
    {
      NameShape(i);
      if i == 39 { LongestName(); }
      if |Name(i)| > maxlen { maxlen := |Name(i)|; }
    }
    maxlen := maxlen + 1;
    fastlookup := "";
    for i := 0 to TABLE_ROWS
      invariant fastlookup == Packed(i)
    {
      NameShape(i);
      fastlookup := fastlookup + Name(i);
      var n := maxlen - |fastlookup| % maxlen;
      assert |fastlookup| % maxlen == |Name(i)| by { Modulo(i, |Name(i)|); }
      ghost var named := fastlookup;
      for j := 0 to n
        invariant fastlookup == named + Spaces(j)
      {
        fastlookup := fastlookup + " ";
      }
      assert fastlookup == Packed(i) + Entry(i);
    }
  }

  lemma LongestName()
    ensures |Name(39)| == MAXLEN - 1
  {
  }

  lemma Modulo(i: nat, n: nat)
    requires n < MAXLEN
    ensures (i * MAXLEN + n) % MAXLEN == n
  {
  }

  // ---- Files ----

  /** A file opened for reading. */
  class Source {
    const text: string
    var pos: nat
    var eof: bool

    constructor (text: string)
      ensures this.text == text && pos == 0 && !eof
    {
      this.text, pos, eof := text, 0, false;
    }

    ghost predicate Valid()
      reads this
    {
      pos <= |text| && (eof ==> pos == |text|)
    }

    /** `fread` of at most `n` bytes; a short count means the end of the file. */
    method Read(n: nat) returns (s: string)
      requires Valid() && n > 0
      modifies this
      ensures Valid() && pos == (if old(pos) + n <= |text| then old(pos) + n else |text|)
      ensures s == text[old(pos)..pos] && (eof <==> old(eof) || |s| < n)
    {
      var end := if pos + n <= |text| then pos + n else |text|;
      s := text[pos..end];
      eof := eof || |s| < n;
      pos := end;
    }
  }

  // ---- Local reasoning: a record's text decides how it is read ----

  /** `s` has an `<EOR>` at `e`, before which a tag's text starts at `p`. */
  ghost predicate Before(s: string, p: nat, e: nat) {
    p <= e && e + 5 <= |s| && OccursAt(s, e, EOR) && '\0' !in s
  }

  lemma EndChars(s: string, e: nat)
    requires OccursAt(s, e, EOR)
    ensures e + 5 <= |s| && s[e] == '<' && s[e + 1] == 'E' && s[e + 2] == 'O' && s[e + 3] == 'R' && s[e + 4] == '>'
  {
    assert s[e..e + 5][0] == s[e] && s[e..e + 5][1] == s[e + 1] && s[e..e + 5][2] == s[e + 2];
    assert s[e..e + 5][3] == s[e + 3] && s[e..e + 5][4] == s[e + 4];
  }

  /** Looking up to the end of the buffer instead of the end of the record finds the same characters. */
  lemma {:induction false} SameColon(s: string, p: nat, e: nat)
    requires Before(s, p, e)
    ensures var u, c, g := s[p..e], IndexOf(s[p..], ':'), IndexOf(s[p..], '>');
      && (IndexOf(u, ':') < IndexOf(u, '>') <==> c < g)
      && (c < g ==> c == IndexOf(u, ':') && c < |u| && (g < |u| ==> g == IndexOf(u, '>')) && (g >= |u| ==> IndexOf(u, '>') == |u|))
  {
    EndChars(s, e);
    var u := s[p..e];
    SamePrefix(s, p, e, ':');
    SamePrefix(s, p, e, '>');
    assert s[p..][e + 4 - p] == '>';
    forall i | |u| <= i < |u| + 5 ensures s[p..][i] != ':' {}
  }

  lemma {:induction false} SamePrefix(s: string, p: nat, e: nat, c: char)
    requires p <= e <= |s|
    ensures if IndexOf(s[p..e], c) < e - p then IndexOf(s[p..], c) == IndexOf(s[p..e], c) else IndexOf(s[p..], c) >= e - p
  {
    var u, w := s[p..e], s[p..];
    var k := IndexOf(u, c);
    forall i | 0 <= i < k ensures w[i] != c { assert w[i] == u[i]; }
    if k < e - p {
      assert w[k] == u[k];
      IndexIs(w, c, k);
    }
  }

  lemma SameEnd(s: string, p: nat, e: nat)
    requires Before(s, p, e) && p < e
    ensures IsEor(s[p..]) <==> IsEor(s[p..e])
  {
    EndChars(s, e);
    var u, w := s[p..e], s[p..];
    if |u| >= 4 {
      assert u[..4] == w[..4];
    } else {
      var c := UpperAll(w[..4]);
      assert w[|u|] == '<' && c[|u|] == '<';
      assert c != "EOR>" by {
        if |u| == 1 { assert c[1] != "EOR>"[1]; } else if |u| == 2 { assert c[2] != "EOR>"[2]; } else { assert c[3] != "EOR>"[3]; }
      }
      assert !IsEor(w) && !IsEor(u);
    }
  }

  /** What the search of the whole buffer finds is what stands before the end of the record. */
  lemma {:induction false} LocalTag(s: string, p: nat, e: nat)
    requires Before(s, p, e)
    ensures var u, c, g := s[p..e], IndexOf(s[p..], ':'), IndexOf(s[p..], '>');
      if IsEor(s[p..]) then ReadTag(u) == EndTag
      else if c < g < |s| - p then
        var i := Lookup(UpperAll(s[p..p + c]));
        && c < |u| && s[p..p + c] == u[..c]
        && (if i < 0 then ReadTag(u) == Other(UpperAll(u[..c]) + u[c..])
            else if g < |u| then ReadTag(u) == FieldTag(i, Digits(s[p + c + 1..p + g], 0), g + 1)
            else ReadTag(u).FieldTag? && ReadTag(u).at > |u|)
      else ReadTag(u) == Other(u)
  {
    hide Lookup, IsEor, IndexOf, OccursAt, UpperAll, Digits;
    var u, c, g := s[p..e], IndexOf(s[p..], ':'), IndexOf(s[p..], '>');
    if p < e { SameEnd(s, p, e); } else { NotAnEnd(s, e); }
    SameColon(s, p, e);
    EndBound(s, p, e);
    if c < g {
      Slices(s, p, e, c);
      if g < |u| { Slices2(s, p, e, c, g); }
    }
  }

  lemma EndBound(s: string, p: nat, e: nat)
    requires Before(s, p, e)
    ensures IndexOf(s[p..], '>') < |s| - p
  {
    EndChars(s, e);
    assert s[p..][e + 4 - p] == '>';
  }

  lemma Slices(s: string, p: nat, e: nat, c: nat)
    requires p + c <= e <= |s|
    ensures s[p..p + c] == s[p..e][..c] && |s[p..e]| == e - p
  {
  }

  lemma Slices2(s: string, p: nat, e: nat, c: nat, g: nat)
    requires p + c < p + g <= e <= |s|
    ensures s[p + c + 1..p + g] == s[p..e][c + 1..g]
  {
    SliceOfSlice(s, p, e, p + c + 1, p + g);
  }

  lemma NotAnEnd(s: string, e: nat)
    requires OccursAt(s, e, EOR)
    ensures !IsEor(s[e..]) && !IsEor(s[e..e])
  {
    EndChars(s, e);
    assert UpperAll(s[e..][..4])[0] == '<';
  }

  /** The whole text of the record at `e`, from `ptr` on, is still to be read, and stands before `e`. */
  ghost predicate Reading(s: string, ptr: nat, e: nat) {
    Before(s, ptr, e) && Fits(s[ptr..e])
  }

  /** Upper-casing moves no colon and no bracket. */
  lemma {:induction false} SameMarks(s: string, p: nat, c: nat, s': string, mark: char)
    requires p + c <= |s| && s' == s[..p] + UpperAll(s[p..p + c]) + s[p + c..] && mark in {':', '>'}
    ensures IndexOf(s'[p..], mark) == IndexOf(s[p..], mark)
  {
    var k := IndexOf(s[p..], mark);
    forall i | 0 <= i < |s| - p ensures s'[p..][i] == mark <==> s[p..][i] == mark {
      if i < c { assert s'[p + i] == Upper(s[p + i]); }
    }
    IndexIs(s'[p..], mark, k);
  }

  lemma UpperedBuffer(s: string, p: nat, c: nat, e: nat, s': string)
    requires Before(s, p, e) && p + c <= e && s' == s[..p] + UpperAll(s[p..p + c]) + s[p + c..]
    ensures |s'| == |s| && '\0' !in s' && s'[e..] == s[e..] && OccursAt(s', e, EOR)
    ensures forall k: nat | p + c <= k <= e :: s'[k..e] == s[k..e]
    ensures s'[p..e] == UpperAll(s[p..e][..c]) + s[p..e][c..]
  {
    forall x | x in s' ensures x != '\0' {
      var k :| 0 <= k < |s'| && s'[k] == x;
      if p <= k < p + c { assert x == Upper(s[k]); } else { assert x == s[k]; }
    }
    forall i | p + c <= i < |s| ensures s'[i] == s[i] {}
    assert s'[e..e + 5] == s[e..e + 5] && s'[e..] == s[e..];
    forall k: nat | p + c <= k <= e ensures s'[k..e] == s[k..e] {}
    assert s'[p..e] == UpperAll(s[p..e][..c]) + s[p..e][c..] by { assert s[p..p + c] == s[p..e][..c]; }
  }

  /** The text of the record from the `<` at `ptr` on. */
  lemma {:induction false} BodyAt(s: string, ptr: nat, e: nat, r: Option<Record>)
    requires ptr < e <= |s| && s[ptr] == '<'
    ensures var b, u := s[ptr..e], s[ptr + 1..e];
      match ReadTag(u)
      case EndTag => ParseBody(b, r) == r
      case Other(rest) => ParseBody(b, r) == ParseBody(rest, r) && (Fits(b) ==> Fits(rest))
      case FieldTag(i, size, at) => Fits(b) ==>
        && at + size <= |u| && Fits(u[at + size..])
        && ParseBody(b, r) == ParseBody(u[at + size..], Some(Put(r, i, Stored(i, u[at..at + size]))))
  {
    hide ReadTag, Put, Stored;
    IndexIs(s[ptr..e], '<', 0);
    assert s[ptr..e][1..] == s[ptr + 1..e];
  }

  /** A step of the reading, from `ptr` to `next`, that leaves the record to be read the same. */
  ghost predicate Progress(s: string, ptr: nat, e: nat, s': string, next: int, rec: Option<Record>, r: Option<Record>) {
    && ptr < next <= e && e <= |s| && |s'| == |s| && Reading(s', next, e) && s'[e..] == s[e..]
    && ParseBody(s[ptr..e], rec) == ParseBody(s'[next..e], r)
  }

  /** A field: reading goes on after its value, and that is still before the end of the record. */
  lemma {:induction false} FieldStep(s: string, ptr: nat, p: nat, e: nat, c: nat, g: nat, s': string, i: nat, at: nat, n: nat,
                                     rec: Option<Record>)
    requires Reading(s, ptr, e) && ptr < e && s[ptr] == '<' && p == ptr + 1 && !IsEor(s[p..])
    requires c == IndexOf(s[p..], ':') < g == IndexOf(s[p..], '>') < |s| - p
    requires s' == s[..p] + UpperAll(s[p..p + c]) + s[p + c..]
    requires i == Lookup(UpperAll(s[p..p + c])) && i < TABLE_ROWS && at == p + g + 1
    requires n == Digits(s'[p + c + 1..p + g], 0)
    ensures at + n <= e <= |s'| && Progress(s, ptr, e, s', at + n, rec, Some(Put(rec, i, Stored(i, s'[at..at + n]))))
  {
    hide ParseBody, Fits, ReadTag, Lookup, IsEor, OccursAt, Put, Stored, IndexOf, Digits;
    var u := s[p..e];
    LocalTag(s, p, e);
    BodyAt(s, ptr, e, rec);
    UpperedBuffer(s, p, c, e, s');
    SliceOfSlice(s, p + c, e, p + c + 1, p + g);
    SliceOfSlice(s', p + c, e, p + c + 1, p + g);
    assert s'[p + c + 1..p + g] == s[p + c + 1..p + g];
    if g < |u| { TailSlices(s, s', p, e, p + c, at, n); }
  }

  lemma TailSlices(s: string, s': string, p: nat, e: nat, k: nat, at: nat, n: nat)
    requires p <= k < at && at + n <= e <= |s| && |s'| == |s| && s'[k..e] == s[k..e]
    ensures s[p..e][at - p + n..] == s'[at + n..e] && s[p..e][at - p..at - p + n] == s'[at..at + n]
  {
    SliceOfSlice(s, k, e, at + n, e);
    SliceOfSlice(s', k, e, at + n, e);
    SliceOfSlice(s, k, e, at, at + n);
    SliceOfSlice(s', k, e, at, at + n);
    SliceOfSlice(s, p, e, at + n, e);
    SliceOfSlice(s, p, e, at, at + n);
  }

  lemma SliceOfSlice(s: string, a: nat, b: nat, i: nat, j: nat)
    requires a <= i <= j <= b <= |s|
    ensures s[a..b][i - a..j - a] == s[i..j] && (j == b ==> s[a..b][i - a..] == s[i..j])
  {
    var x := s[a..b][i - a..j - a];
    assert forall k | 0 <= k < |x| :: x[k] == s[i + k];
    assert |s[a..b]| == b - a;
  }

  /** Anything else: reading goes on right after the `<`. */
  lemma {:induction false} OtherStep(s: string, ptr: nat, e: nat, s': string, r: Option<Record>)
    requires Reading(s, ptr, e) && ptr < e && s[ptr] == '<' && !IsEor(s[ptr + 1..])
    requires var p := ptr + 1;
      var c, g := IndexOf(s[p..], ':'), IndexOf(s[p..], '>');
      if c < g < |s| - p then
        Lookup(UpperAll(s[p..p + c])) < 0 && s' == s[..p] + UpperAll(s[p..p + c]) + s[p + c..]
      else s' == s
    ensures Progress(s, ptr, e, s', ptr + 1, r, r)
  {
    hide ParseBody, Fits, ReadTag, Lookup, IsEor, OccursAt, IndexOf;
    var p := ptr + 1;
    var c, g := IndexOf(s[p..], ':'), IndexOf(s[p..], '>');
    LocalTag(s, p, e);
    BodyAt(s, ptr, e, r);
    if c < g < |s| - p { UpperedBuffer(s, p, c, e, s'); }
  }

  lemma {:induction false} NoNul(s: string, p: nat, c: nat, e: nat, s': string)
    requires '\0' !in s && p + c <= |s| && s' == s[..p] + UpperAll(s[p..p + c]) + s[p + c..]
    ensures '\0' !in s'
  {
    forall x | x in s' ensures x != '\0' {
      var k :| 0 <= k < |s'| && s'[k] == x;
      if p <= k < p + c { assert x == Upper(s[k]); } else { assert x == s[k]; }
    }
  }

  /** What `findfield` finds at `p` in `s`, and makes of it: -1 for the end tag, the row of the name, which is upper-cased
      then, or -2. */
  ghost predicate TagFound(s: string, p: nat, s': string, found: int)
    requires p <= |s|
  {
    var c, g := IndexOf(s[p..], ':'), IndexOf(s[p..], '>');
    if IsEor(s[p..]) then found == -1 && s' == s
    else if c < g < |s| - p then
      var i := Lookup(UpperAll(s[p..p + c]));
      found == (if i >= 0 then i else -2) && s' == s[..p] + UpperAll(s[p..p + c]) + s[p + c..]
    else found == -2 && s' == s
  }

  /** If a field's name stands there, in small or capital letters, that field is found. */
  ghost predicate FoundByName(u: string, found: int) {
    var c := IndexOf(u, ':');
    c < IndexOf(u, '>') < |u| ==> forall i: nat | i < TABLE_ROWS && Spells(Name(i), u[..c]) :: found == i
  }

  lemma {:induction false} TagByName(s: string, p: nat, s': string, found: int)
    requires p <= |s| && TagFound(s, p, s', found)
    ensures FoundByName(s[p..], found)
  {
    hide Name, Lookup, Spells, IsEor;
    var u := s[p..];
    var c := IndexOf(u, ':');
    if c < IndexOf(u, '>') < |u| {
      assert s[p..p + c] == u[..c];
      forall i: nat | i < TABLE_ROWS && Spells(Name(i), u[..c]) ensures found == i { NameInAnyCase(i, u, c); }
    }
  }

  /** The name of the field `found` of the table stands behind the `<` at `ptr`, upper-cased by now. */
  ghost predicate NameFound(s: string, ptr: nat, e: nat, s': string, found: nat)
    requires ptr < |s|
  {
    var p := ptr + 1;
    var c, g := IndexOf(s[p..], ':'), IndexOf(s[p..], '>');
    && ptr < e && s[ptr] == '<' && !IsEor(s[p..])
    && c < g < |s| - p && found == Lookup(UpperAll(s[p..p + c]))
    && s' == s[..p] + UpperAll(s[p..p + c]) + s[p + c..]
  }

  /** What `fillfield` makes of the record, from the tag text at `p` on. */
  ghost predicate Filled(s: string, p: nat, fieldnum: nat, rec: Record, next: int, r: Record)
    requires p <= |s| && fieldnum < TABLE_ROWS
  {
    var c, g := IndexOf(s[p..], ':'), IndexOf(s[p..], '>');
    if c < g < |s| - p then
      var at, n := p + g + 1, Digits(s[p + c + 1..p + g], 0);
      next == at + n && (at + n <= |s| ==> r == rec[fieldnum := Stored(fieldnum, s[at..at + n])])
    else next == -1 && r == rec
  }

  lemma {:induction false} NameKeeps(s: string, ptr: nat, e: nat, s': string, p: nat, c: nat)
    requires Reading(s, ptr, e) && p + c <= |s| && s' == s[..p] + UpperAll(s[p..p + c]) + s[p + c..]
    ensures '\0' !in s' && IndexOf(s'[p..], ':') == IndexOf(s[p..], ':') && IndexOf(s'[p..], '>') == IndexOf(s[p..], '>')
  {
    hide Fits, IndexOf;
    SameMarks(s, p, c, s', ':');
    SameMarks(s, p, c, s', '>');
    NoNul(s, p, c, e, s');
  }

  lemma FilledIs(s: string, p: nat, c: nat, g: nat, fieldnum: nat, rec: Record, next: int, r: Record) returns (n: nat)
    requires p <= |s| && fieldnum < TABLE_ROWS && Filled(s, p, fieldnum, rec, next, r)
    requires c == IndexOf(s[p..], ':') && g == IndexOf(s[p..], '>') && c < g < |s| - p
    ensures var at := p + g + 1;
      && n == Digits(s[p + c + 1..p + g], 0) && next == at + n
      && (at + n <= |s| ==> r == rec[fieldnum := Stored(fieldnum, s[at..at + n])])
  {
    n := Digits(s[p + c + 1..p + g], 0);
  }

  lemma PutIs(rec: Option<Record>, i: nat, v: string)
    requires i < TABLE_ROWS
    ensures Put(rec, i, v) == (if rec.Some? then rec.value else BLANK)[i := v]
  {
  }

  lemma NameParts(s: string, ptr: nat, p: nat, e: nat, s': string, found: nat) returns (c: nat, g: nat)
    requires ptr < |s| && p == ptr + 1 && NameFound(s, ptr, e, s', found)
    ensures ptr < e && s[ptr] == '<' && !IsEor(s[p..]) && c == IndexOf(s[p..], ':') && g == IndexOf(s[p..], '>')
    ensures c < g < |s| - p && found == Lookup(UpperAll(s[p..p + c]))
    ensures s' == s[..p] + UpperAll(s[p..p + c]) + s[p + c..]
  {
    hide UpperAll, IndexOf, IsEor, Lookup;
    c, g := IndexOf(s[p..], ':'), IndexOf(s[p..], '>');
  }

  lemma {:induction false} FieldRead(s: string, ptr: nat, e: nat, s': string, found: nat, rec: Option<Record>, next: int, r: Record)
    requires Reading(s, ptr, e) && ptr < |s| == |s'| && found < TABLE_ROWS && NameFound(s, ptr, e, s', found)
    requires '\0' !in s' ==> Filled(s', ptr + 1, found, if rec.Some? then rec.value else BLANK, next, r)
    ensures Progress(s, ptr, e, s', next, rec, Some(r))
  {
    hide Lookup, IsEor, Stored, IndexOf, Digits, Progress, Reading, UpperAll, Filled, Put, NameFound;
    var p := ptr + 1;
    var c, g := NameParts(s, ptr, p, e, s', found);
    NameKeeps(s, ptr, e, s', p, c);
    var n := FilledIs(s', p, c, g, found, if rec.Some? then rec.value else BLANK, next, r);
    FieldStep(s, ptr, p, e, c, g, s', found, p + g + 1, n, rec);
    PutIs(rec, found, Stored(found, s'[p + g + 1..next]));
  }

  lemma ReadOn(start: string, text: string, from: nat, mid: nat, to: nat)
    requires from <= mid <= to <= |text|
    ensures start + text[from..mid] + text[mid..to] == start + text[from..to]
  {
  }

  // ---- Records of the database ----

  /** A record of the database with these fields; its last field, which no file holds, is empty. */
  function ToRec(r: Record): QsoDb.Rec {
    QsoDb.Rec(r + [""])
  }

  function ToRecs(rs: seq<Record>): (s: seq<QsoDb.Rec>)
    ensures |s| == |rs|
  {
    seq(|rs|, i requires 0 <= i < |rs| => ToRec(rs[i]))
  }

  /** None, or one. */
  function OneOf(r: Option<Record>): seq<Record> {
    if r.Some? then [r.value] else []
  }

  /** The fields of a record of the database that a file holds. */
  function Fields(r: QsoDb.Rec): Record {
    seq(TABLE_ROWS, i => r.Get(i))
  }

  function AllFields(s: seq<QsoDb.Rec>): (rs: seq<Record>)
    ensures |rs| == |s|
  {
    seq(|s|, i requires 0 <= i < |s| => Fields(s[i]))
  }

  lemma NewIsBlank()
    ensures ToRec(BLANK) == QsoDb.BLANK
  {
  }

  lemma FieldPut(r: Record, i: nat, value: string)
    requires i < TABLE_ROWS
    ensures ToRec(r).Put(i, value) == ToRec(r[i := value])
  {
  }

  lemma RecordAdded(base: seq<QsoDb.Rec>, rs: seq<Record>, r: Option<Record>)
    ensures base + ToRecs(rs) + ToRecs(OneOf(r)) == base + ToRecs(rs + OneOf(r))
  {
  }

  // ---- Reading ----

  class AdifReader {
    const fastlookup: string
    const maxlen: nat
    const db: QsoDb.Database
    var sbuff: string

    /** The record that is being read, if one has been begun, is the last of the database: in slot `slot`, with the fields
        `rec`. The records before it are `base`. */
    ghost predicate Held(slot: Option<nat>, rec: Option<Record>, base: seq<QsoDb.Rec>)
      reads db, db.qsorec
    {
      && db.Valid() && (slot.Some? <==> rec.Some?) && (slot.Some? ==> slot.value == |base|)
      && db.Records() == base + ToRecs(OneOf(rec))
    }

    ghost predicate Valid()
      reads this
    {
      fastlookup == Packed(TABLE_ROWS) && maxlen == MAXLEN
    }

    constructor (fastlookup: string, maxlen: nat, db: QsoDb.Database)
      requires fastlookup == Packed(TABLE_ROWS) && maxlen == MAXLEN
      ensures Valid() && this.db == db
    {
      this.fastlookup, this.maxlen, this.sbuff, this.db := fastlookup, maxlen, "", db;
    }

    /** The record in which fields are stored: a new one from the database if there is none yet. */
    method Slot(slot: Option<nat>, ghost rec: Option<Record>, ghost base: seq<QsoDb.Rec>) returns (n: nat, ghost r: Record)
      requires Held(slot, rec, base)
      modifies db, db.qsorec
      ensures Held(Some(n), Some(r), base) && r == (if rec.Some? then rec.value else BLANK)
      ensures db.qsorec == old(db.qsorec) || fresh(db.qsorec)
    {
      r := if rec.Some? then rec.value else BLANK;
      if slot.Some? { return slot.value, r; }
      NewIsBlank();
      n := db.NewRec();
    }

    /** `putField` on that record. */
    method Store(slot: nat, fieldnum: nat, value: string, ghost rec: Record, ghost base: seq<QsoDb.Rec>)
      requires fieldnum < TABLE_ROWS && Held(Some(slot), Some(rec), base)
      modifies db.qsorec
      ensures Held(Some(slot), Some(rec[fieldnum := value]), base)
    {
      FieldPut(rec, fieldnum, value);
      db.PutField(slot, fieldnum, value);
    }

    /** `strchr`: the first `c` at `from` or after it and before any NUL, or the length of the buffer. */
    method StrChr(from: nat, c: char) returns (k: nat)
      requires from <= |sbuff| && c != '\0'
      ensures from <= k <= |sbuff| && (k < |sbuff| ==> sbuff[k] == c)
      ensures '\0' !in sbuff ==> k == from + IndexOf(sbuff[from..], c)
    {
      k := from;
      while k < |sbuff| && sbuff[k] != c && sbuff[k] != '\0'
        invariant from <= k <= |sbuff| && forall i | from <= i < k :: sbuff[i] != c
      {
        k := k + 1;
      }
      if '\0' !in sbuff { IndexIs(sbuff[from..], c, k - from); }
      if k < |sbuff| && sbuff[k] != c { k := |sbuff|; }
    }

    /** `findfield`: the row of the tag whose text starts at `p`, -1 for the end tag, -2 if there is none. The tag's name
        is upper-cased where it stands. */
    method FindField(p: nat) returns (found: int)
      requires Valid() && p <= |sbuff|
      modifies this`sbuff
      ensures found < TABLE_ROWS && |sbuff| == |old(sbuff)|
      ensures '\0' !in old(sbuff) ==> TagFound(old(sbuff), p, sbuff, found) && FoundByName(old(sbuff)[p..], found)
    {
      hide Packed, Lookup, IsEor, FoundByName;
      ghost var s0 := sbuff;
      found := -1;
      var eor := AtEor(p);
      if !eor {
        var p1 := StrChr(p, ':');
        var p2 := StrChr(p, '>');
        found := -2;
        if p1 < p2 < |sbuff| {
          UpperCase(p, p1);
          found := Find(sbuff[p..p1]);
        }
      }
      if '\0' !in s0 { TagByName(s0, p, sbuff, found); }
    }

    method UpperCase(from: nat, to: nat)
      requires from <= to <= |sbuff|
      modifies this`sbuff
      ensures sbuff == old(sbuff)[..from] + UpperAll(old(sbuff)[from..to]) + old(sbuff)[to..]
    {
      ghost var s0 := sbuff;
      var pos := from;
      while pos < to
        invariant from <= pos <= to && |sbuff| == |s0|
        invariant sbuff == s0[..from] + UpperAll(s0[from..pos]) + s0[pos..]
      {
        sbuff := sbuff[pos := Upper(sbuff[pos])];
        pos := pos + 1;
      }
    }

    /** `strcasestr` in the packed table; entries and keys are in capitals. */
    method Find(key: string) returns (found: int)
      requires Valid()
      ensures found < TABLE_ROWS && found == if Lookup(key) >= 0 then Lookup(key) else -2
    {
      var hit := FirstFrom(fastlookup, 0, key);
      if hit < 0 { return -2; }
      found := RowAt(hit, key);
    }

    method RowAt(hit: nat, key: string) returns (row: nat)
      requires Valid() && hit == FirstFrom(fastlookup, 0, key)
      ensures row < TABLE_ROWS && row == Lookup(key)
    {
      row := hit / maxlen;
      if row >= TABLE_ROWS { row := TABLE_ROWS - 1; }
    }

    /** `strncasecmp` with the end tag. */
    method AtEor(p: nat) returns (b: bool)
      requires p <= |sbuff|
      ensures b == IsEor(sbuff[p..])
    {
      var want := "EOR>";
      var i := 0;
      while i < 4
        invariant i <= 4 && p + i <= |sbuff| && (forall j | 0 <= j < i :: Upper(sbuff[p + j]) == want[j])
      {
        if p + i >= |sbuff| { return false; }
        if Upper(sbuff[p + i]) != want[i] {
          if p + 4 <= |sbuff| { assert UpperAll(sbuff[p..][..4])[i] == Upper(sbuff[p + i]) && want[i] == "EOR>"[i]; }
          return false;
        }
        i := i + 1;
      }
      assert UpperAll(sbuff[p..][..4]) == want;
      b := true;
    }

    /** `fillfield`: stores the value of the tag whose text starts at `p`, and returns where reading goes on, or -1. */
    method FillField(fieldnum: nat, p: nat, slot: nat, ghost rec: Record, ghost base: seq<QsoDb.Rec>)
      returns (next: int, ghost r: Record)
      requires Valid() && p <= |sbuff| && fieldnum < TABLE_ROWS && Held(Some(slot), Some(rec), base)
      modifies db.qsorec
      ensures Held(Some(slot), Some(r), base)
      ensures next == -1 || next > p
      ensures '\0' !in sbuff ==> Filled(sbuff, p, fieldnum, rec, next, r)
      ensures '\0' !in sbuff ==>
        var c, g := IndexOf(sbuff[p..], ':'), IndexOf(sbuff[p..], '>');
        c < g < |sbuff| - p && next <= |sbuff| ==>
          && p + g + 1 <= next && Keeps(fieldnum, sbuff[p + g + 1..next], r[fieldnum])
          && forall i | 0 <= i < TABLE_ROWS && i != fieldnum :: r[i] == rec[i]
    {
      hide Packed, Stored, Held, Keeps;
      r := rec;
      var p1 := StrChr(p, ':');
      var p2 := StrChr(p, '>');
      if p1 == |sbuff| || p2 == |sbuff| || p2 < p1 { return -1, rec; }
      var fldsize := FieldLength(p1 + 1, p2);
      var end := if p2 + 1 + fldsize <= |sbuff| then p2 + 1 + fldsize else |sbuff|;
      var tmp := Trimmed(fieldnum, sbuff[p2 + 1..end], fldsize);
      Store(slot, fieldnum, tmp, rec, base);
      r := rec[fieldnum := tmp];
      next := p2 + 1 + fldsize;
      if next <= |sbuff| { StoredKeeps(fieldnum, sbuff[p2 + 1..next]); }
    }

    /** Cuts a value that is too long, and fills up a time. */
    method Trimmed(fieldnum: nat, value: string, fldsize: nat) returns (tmp: string)
      ensures |value| == fldsize ==> tmp == Stored(fieldnum, value)
    {
      tmp := value;
      if fldsize > FieldSize(fieldnum) && |tmp| > FieldSize(fieldnum) { tmp := tmp[..FieldSize(fieldnum)]; }
      if (fieldnum == TIME_ON || fieldnum == TIME_OFF) && fldsize < 6 {
        SmallTimes();
        ghost var start := tmp;
        while |tmp| < 6
          invariant |start| <= |tmp| && (|tmp| <= 6 || tmp == start) && tmp == start + seq(|tmp| - |start|, _ => '0')
        {
          tmp := tmp + "0";
        }
      }
    }

    method FieldLength(p1: nat, p2: nat) returns (fldsize: nat)
      requires p1 <= p2 <= |sbuff|
      ensures fldsize == Digits(sbuff[p1..p2], 0)
    {
      fldsize := 0;
      var p := p1;
      while p != p2
        invariant p1 <= p <= p2 && Digits(sbuff[p..p2], fldsize) == Digits(sbuff[p1..p2], 0)
      {
        assert sbuff[p..p2][1..] == sbuff[p + 1..p2];
        if IsDigit(sbuff[p]) { fldsize := fldsize * 10 + (sbuff[p] as int - '0' as int); }
        p := p + 1;
      }
    }

    /** One turn of the loop over tags: the tag at `ptr`. */
    method OneTag(ptr: nat, slot: Option<nat>, ghost rec: Option<Record>, ghost base: seq<QsoDb.Rec>, ghost e: nat)
      returns (next: int, slot': Option<nat>, ghost r: Option<Record>, end: bool)
      requires Valid() && ptr < |sbuff| && sbuff[ptr] == '<' && Held(slot, rec, base)
      modifies this`sbuff, db, db.qsorec
      ensures Held(slot', r, base) && (db.qsorec == old(db.qsorec) || fresh(db.qsorec))
      ensures |sbuff| == |old(sbuff)| && (!end ==> next == -1 || next > ptr)
      ensures Reading(old(sbuff), ptr, e) ==>
        if end then r == rec && r == ParseBody(old(sbuff)[ptr..e], rec) && sbuff == old(sbuff)
        else Progress(old(sbuff), ptr, e, sbuff, next, rec, r)
    {
      hide ParseBody, ReadTag, Lookup, IsEor, Stored, Packed, IndexOf, Digits, Progress, Reading, Put;
      ghost var s, p := sbuff, ptr + 1;
      r, slot', next, end := rec, slot, -1, false;
      if Reading(s, ptr, e) { EndOrNot(s, ptr, e, rec); }
      var found := FindField(ptr + 1);
      if found == -1 { end := true; return; }
      if found > -1 {
        next, slot', r := FieldTurn(s, ptr, found, slot, rec, base, e);
      } else {
        next := ptr + 1;
        if Reading(s, ptr, e) { OtherStep(s, ptr, e, sbuff, rec); }
      }
    }

    /** The turn for a field of the table, found in the buffer `s` before its name was upper-cased. */
    method FieldTurn(ghost s: string, ptr: nat, found: nat, slot: Option<nat>, ghost rec: Option<Record>,
                     ghost base: seq<QsoDb.Rec>, ghost e: nat)
      returns (next: int, slot': Option<nat>, ghost r: Option<Record>)
      requires Valid() && ptr < |sbuff| && found < TABLE_ROWS && |s| == |sbuff| && Held(slot, rec, base)
      requires Reading(s, ptr, e) ==> NameFound(s, ptr, e, sbuff, found)
      modifies db, db.qsorec
      ensures Held(slot', r, base) && (db.qsorec == old(db.qsorec) || fresh(db.qsorec))
      ensures next == -1 || next > ptr
      ensures Reading(s, ptr, e) ==> Progress(s, ptr, e, sbuff, next, rec, r)
    {
      hide ParseBody, ReadTag, Lookup, IsEor, Stored, Packed, IndexOf, Digits, Progress, OccursAt, Fits, Held, Reading, NameFound, Filled;
      var n, base' := Slot(slot, rec, base);
      ghost var filled;
      next, filled := FillField(found, ptr + 1, n, base', base);
      slot', r := Some(n), Some(filled);
      if Reading(s, ptr, e) { FieldRead(s, ptr, e, sbuff, found, rec, next, filled); }
    }

    /** Reads the record that ends with the `<EOR>` at `e` into the database, which has no new record if it has no field. */
    method ReadRecord(e: nat) returns (ghost r: Option<Record>)
      requires Valid() && db.Valid() && e <= |sbuff|
      modifies this`sbuff, db, db.qsorec
      ensures db.Valid() && (db.qsorec == old(db.qsorec) || fresh(db.qsorec))
      ensures db.Records() == old(db.Records()) + ToRecs(OneOf(r)) && |sbuff| == |old(sbuff)|
      ensures Reading(old(sbuff), 0, e) ==> r == ParseBody(old(sbuff)[..e], None) && sbuff[e..] == old(sbuff)[e..]
    {
      hide ParseBody, Progress, Reading, IndexOf, Put, Packed;
      ghost var s, base := sbuff, db.Records();
      var adifqso := None;
      r := None;
      assert Held(adifqso, r, base);
      if Reading(s, 0, e) { ToTag(s, 0, e, r); }
      var ptr := StrChr(0, '<');
      while ptr < |sbuff|
        invariant ptr <= |sbuff| && |sbuff| == |s| && (ptr < |sbuff| ==> sbuff[ptr] == '<')
        invariant Held(adifqso, r, base) && (db.qsorec == old(db.qsorec) || fresh(db.qsorec))
        invariant Reading(s, 0, e) ==>
          && ptr <= e < |sbuff| && Reading(sbuff, ptr, e) && sbuff[e..] == s[e..]
          && ParseBody(s[..e], None) == ParseBody(sbuff[ptr..e], r)
        decreases |sbuff| - ptr
      {
        ghost var before, was := sbuff, r;
        var next, q, r', end := OneTag(ptr, adifqso, r, base, e);
        adifqso, r := q, r';
        if end { return; }
        if next == -1 || next - ptr > e || next > |sbuff| { Stopping(s, before, ptr, e, sbuff, next, was, r); return; }
        if Reading(s, 0, e) { Onwards(before, ptr, e, sbuff, next, was, r); ToTag(sbuff, next, e, r); }
        ptr := StrChr(next, '<');
      }
    }

    /** The end of the next record in the buffer, or -1. */
    method FindEnd() returns (p: int)
      ensures p == -1 || 0 <= p <= |sbuff| - 5
      ensures p == if FirstFrom(sbuff, 0, EOR) >= 0 then FirstFrom(sbuff, 0, EOR) else FirstFrom(sbuff, 0, EOR_LOWER)
      ensures !Contains(sbuff, EOR_LOWER) ==> p == FirstFrom(sbuff, 0, EOR)
    {
      p := FirstFrom(sbuff, 0, EOR);
      if p < 0 { p := FirstFrom(sbuff, 0, EOR_LOWER); }
    }

    /** Removes line ends at the start of the buffer. */
    method SkipLineEnds(ghost unread: string)
      modifies this`sbuff
      ensures WellFormed(old(sbuff) + unread) ==>
        WellFormed(sbuff + unread) && ReadAll(sbuff + unread) == ReadAll(old(sbuff) + unread)
      ensures ('\0' !in old(sbuff) ==> '\0' !in sbuff) && |sbuff| <= |old(sbuff)|
    {
      hide WellFormed, ReadAll;
      while |sbuff| > 0 && (sbuff[0] == '\r' || sbuff[0] == '\n')
        invariant WellFormed(old(sbuff) + unread) ==>
          WellFormed(sbuff + unread) && ReadAll(sbuff + unread) == ReadAll(old(sbuff) + unread)
        invariant ('\0' !in old(sbuff) ==> '\0' !in sbuff) && |sbuff| <= |old(sbuff)|
        decreases |sbuff|
      {
        assert (sbuff + unread)[1..] == sbuff[1..] + unread;
        if WellFormed(sbuff + unread) { LineEndDropped(sbuff + unread); }
        sbuff := sbuff[1..];
      }
    }

    /** Reads blocks until the buffer holds the end of a record, or the file ends. */
    method FillBuffer(src: Source, block: nat) returns (p: int)
      requires Valid() && src.Valid() && block > 0
      modifies this`sbuff, src
      ensures src.Valid() && old(src.pos) <= src.pos && sbuff == old(sbuff) + src.text[old(src.pos)..src.pos]
      ensures p == -1 || 0 <= p <= |sbuff| - 5
      ensures !Contains(sbuff + src.text[src.pos..], EOR_LOWER) ==>
        p == FirstFrom(sbuff, 0, EOR) && (p < 0 ==> src.pos == |src.text|)
    {
      hide Contains, FirstFrom;
      p := FindEnd();
      ghost var start, from := sbuff, src.pos;
      NotBelow(sbuff, src.text[src.pos..]);
      while !src.eof && p < 0
        invariant src.Valid() && from <= src.pos && sbuff == start + src.text[from..src.pos]
        invariant p == -1 || 0 <= p <= |sbuff| - 5
        invariant !Contains(sbuff + src.text[src.pos..], EOR_LOWER) ==> p == FirstFrom(sbuff, 0, EOR)
        decreases |src.text| - src.pos, !src.eof
      {
        ghost var mid := src.pos;
        var more := src.Read(block);
        ReadOn(start, src.text, from, mid, src.pos);
        sbuff := sbuff + more;
        p := FindEnd();
        NotBelow(sbuff, src.text[src.pos..]);
      }
    }

    /** `readfile_`, reading `block` bytes at a time. */
    method ReadFile(src: Source, block: nat)
      requires Valid() && db.Valid() && src.Valid() && src.pos == 0 && !src.eof && block > 0
      modifies this`sbuff, src, db, db.qsorec
      ensures db.Valid() && (db.qsorec == old(db.qsorec) || fresh(db.qsorec))
      ensures var k := FirstFrom(src.text, 0, EOH);
        0 <= k <= block - 5 && '\0' !in src.text && WellFormed(src.text[k + 5..]) ==>
          db.Records() == old(db.Records()) + ToRecs(ReadAll(src.text[k + 5..]))
      ensures var first := src.text[..if block < |src.text| then block else |src.text|];
        FirstFrom(first, 0, EOH) < 0 && FirstFrom(first, 0, EOH_LOWER) < 0 ==> db.Records() == old(db.Records())
      ensures old(db.Records()) <= db.Records()
    {
      hide WellFormed, ReadAll, Contains, Packed, FirstFrom;
      ghost var file, base := src.text, db.Records();
      ghost var k := FirstFrom(file, 0, EOH);
      ghost var ok := 0 <= k <= block - 5 && '\0' !in file && WellFormed(file[k + 5..]);
      sbuff := src.Read(block);
      assert sbuff == file[..if block < |file| then block else |file|];
      var h := Header();
      if ok { HeaderInBlock(file, src.pos, block, k); }
      if h < 0 { return; }
      sbuff := sbuff[h + 5..];
      if ok { AfterHeader(file, src.pos, k, sbuff); }
      ghost var rest := if ok then file[k + 5..] else "";
      ghost var got := ReadRecords(src, block, rest);
    }

    /** The end of the header in the first block. */
    method Header() returns (h: int)
      ensures h == if FirstFrom(sbuff, 0, EOH) >= 0 then FirstFrom(sbuff, 0, EOH) else FirstFrom(sbuff, 0, EOH_LOWER)
      ensures h >= 0 ==> h + 5 <= |sbuff|
    {
      h := FirstFrom(sbuff, 0, EOH);
      if h < 0 { h := FirstFrom(sbuff, 0, EOH_LOWER); }
    }

    /** The rest of the file, record by record. If what is left to read is `rest`, and that is well-formed, its records are
        appended. */
    method ReadRecords(src: Source, block: nat, ghost rest: string) returns (ghost got: seq<Record>)
      requires Valid() && db.Valid() && src.Valid() && block > 0
      modifies this`sbuff, src, db, db.qsorec
      ensures db.Valid() && (db.qsorec == old(db.qsorec) || fresh(db.qsorec))
      ensures db.Records() == old(db.Records()) + ToRecs(got)
      ensures old(Left(rest, src)) ==> got == ReadAll(rest)
    {
      hide WellFormed, ReadAll, Contains, Packed, AtRecord, Left;
      ghost var file, base, ok := src.text, db.Records(), Left(rest, src);
      got := [];
      if ok { LeftIs(rest, src); }
      var p := NextEnd(src, block);
      while p >= 0
        invariant src.Valid() && src.text == file && (p == -1 || 0 <= p <= |sbuff| - 5)
        invariant db.Valid() && (db.qsorec == old(db.qsorec) || fresh(db.qsorec))
        invariant db.Records() == base + ToRecs(got)
        invariant ok ==> AtRecord(sbuff, file[src.pos..], p) && got + ReadAll(sbuff + file[src.pos..]) == ReadAll(rest)
        decreases |sbuff| + |file| - src.pos
      {
        ghost var before, was, unread := sbuff, got, file[src.pos..];
        var r := ReadRecord(p);
        RecordAdded(base, got, r);
        got := got + OneOf(r);
        if ok { RecordDone(before, p, unread, sbuff, was, r); }
        sbuff := sbuff[p + 5..];
        p := NextEnd(src, block);
      }
      if ok { NoneLeft(sbuff, file[src.pos..], p); }
    }

    /** What is in the buffer and in the rest of the file is `rest`, and that is well-formed. */
    ghost predicate Left(rest: string, src: Source)
      reads this, src
    {
      src.Valid() && sbuff + src.text[src.pos..] == rest && WellFormed(rest) && '\0' !in sbuff && '\0' !in src.text
    }

    lemma LeftIs(rest: string, src: Source)
      requires Left(rest, src)
      ensures src.Valid() && WellFormed(sbuff + src.text[src.pos..]) && sbuff + src.text[src.pos..] == rest
      ensures '\0' !in sbuff && '\0' !in src.text
    {
    }

    /** Goes on to the next record: past line ends, and reading more of the file if need be. */
    method NextEnd(src: Source, block: nat) returns (p: int)
      requires Valid() && src.Valid() && block > 0
      modifies this`sbuff, src
      ensures src.Valid() && old(src.pos) <= src.pos && (p == -1 || 0 <= p <= |sbuff| - 5)
      ensures |sbuff| - src.pos <= |old(sbuff)| - old(src.pos)
      ensures var unread := src.text[old(src.pos)..];
        '\0' !in old(sbuff) && '\0' !in src.text && WellFormed(old(sbuff) + unread) ==>
          AtRecord(sbuff, src.text[src.pos..], p) && ReadAll(sbuff + src.text[src.pos..]) == ReadAll(old(sbuff) + unread)
    {
      hide WellFormed, ReadAll, Contains, AtRecord;
      ghost var file, pos, s := src.text, src.pos, sbuff;
      SkipLineEnds(file[pos..]);
      ghost var s1 := sbuff;
      p := FillBuffer(src, block);
      if '\0' !in s && '\0' !in file && WellFormed(s + file[pos..]) {
        Refilled(file, s1, pos, src.pos, sbuff);
        ItIsAtRecord(sbuff, file[src.pos..], p);
      }
    }
  }

  /** What is left of the file is well-formed, and `p` is the end of the first record in the buffer `s`. */
  ghost predicate AtRecord(s: string, unread: string, p: int) {
    && WellFormed(s + unread) && '\0' !in s && '\0' !in unread
    && p == FirstFrom(s, 0, EOR) && (p < 0 ==> unread == "")
  }

  lemma ItIsAtRecord(s: string, unread: string, p: int)
    requires WellFormed(s + unread) && '\0' !in s && '\0' !in unread
    requires !Contains(s + unread, EOR_LOWER) ==> p == FirstFrom(s, 0, EOR) && (p < 0 ==> unread == "")
    ensures AtRecord(s, unread, p)
  {
  }

  lemma AfterHeader(file: string, pos: nat, k: nat, s: string)
    requires k + 5 <= pos <= |file| && s == file[..pos][k + 5..] && '\0' !in file
    ensures s + file[pos..] == file[k + 5..] && '\0' !in s
  {
  }

  /** Reading on does not change what is left. */
  lemma Refilled(file: string, s: string, pos: nat, pos': nat, s': string)
    requires pos <= pos' <= |file| && s' == s + file[pos..pos'] && '\0' !in s && '\0' !in file
    ensures s' + file[pos'..] == s + file[pos..] && '\0' !in s' && '\0' !in file[pos'..]
  {
    assert file[pos..pos'] + file[pos'..] == file[pos..];
  }

  lemma After(before: string, p: nat, after: string)
    requires p + 5 <= |before| == |after| && after[p..] == before[p..] && '\0' !in before
    ensures after[p + 5..] == before[p + 5..] && '\0' !in after[p + 5..]
  {
    assert after[p..][5..] == after[p + 5..] && before[p..][5..] == before[p + 5..];
  }

  /** One record less. */
  lemma {:induction false} RecordDone(before: string, p: nat, unread: string, after: string, was: seq<Record>, r: Option<Record>)
    requires AtRecord(before, unread, p) && p + 5 <= |before| == |after|
    requires Reading(before, 0, p) ==> r == ParseBody(before[..p], None) && after[p..] == before[p..]
    ensures WellFormed(after[p + 5..] + unread) && '\0' !in after[p + 5..]
    ensures was + OneOf(r) + ReadAll(after[p + 5..] + unread) == was + ReadAll(before + unread)
  {
    hide WellFormed, ReadAll, ParseBody, Reading;
    RecordTaken(before, p, unread);
    After(before, p, after);
    assert was + OneOf(r) + ReadAll(after[p + 5..] + unread) == was + (OneOf(r) + ReadAll(after[p + 5..] + unread));
  }

  lemma NoneLeft(s: string, unread: string, p: int)
    requires AtRecord(s, unread, p) && p < 0
    ensures ReadAll(s + unread) == []
  {
    assert s + unread == s;
  }

  /** Only a text that is not well-formed makes the reader give up on a record. */
  lemma Stopping(s: string, before: string, ptr: nat, e: nat, after: string, next: int, rec: Option<Record>, r: Option<Record>)
    requires Reading(s, 0, e) ==> Progress(before, ptr, e, after, next, rec, r)
    requires next == -1 || next - ptr > e || next > |after|
    ensures !Reading(s, 0, e)
  {
    hide Reading;
  }

  lemma Onwards(before: string, ptr: nat, e: nat, after: string, next: int, rec: Option<Record>, r: Option<Record>)
    requires Progress(before, ptr, e, after, next, rec, r)
    ensures 0 <= ptr < next <= e <= |after| && |after| == |before| && Reading(after, next, e) && after[e..] == before[e..]
    ensures ptr <= |before| && e <= |before| && ParseBody(before[ptr..e], rec) == ParseBody(after[next..e], r)
  {
    hide Reading;
  }

  /** The next `<` is in front of the end of the record, or is its end tag. */
  lemma {:induction false} ToTag(s: string, p: nat, e: nat, r: Option<Record>)
    requires Reading(s, p, e)
    ensures p <= e < |s| && '\0' !in s
    ensures var q := p + IndexOf(s[p..], '<');
      q <= e && Reading(s, q, e) && ParseBody(s[p..e], r) == ParseBody(s[q..e], r)
  {
    hide ParseBody, Fits, IndexOf, OccursAt;
    EndChars(s, e);
    SamePrefix(s, p, e, '<');
    assert s[p..][e - p] == '<';
    var k := IndexOf(s[p..e], '<');
    SkipText(s[p..e], r);
    SliceOfSlice(s, p, e, p + k, e);
  }

  /** Text before the first `<` does not matter. */
  lemma {:induction false} SkipText(b: string, r: Option<Record>)
    ensures var k := IndexOf(b, '<');
      ParseBody(b[k..], r) == ParseBody(b, r) && Fits(b[k..]) == Fits(b)
  {
    hide ReadTag, Stored;
    var k := IndexOf(b, '<');
    if k < |b| {
      IndexIs(b[k..], '<', 0);
      assert b[k..][1..] == b[k + 1..];
    } else {
      assert b[k..] == "";
    }
  }

  /** At the end of the record's text, or in front of it. */
  lemma {:induction false} EndOrNot(s: string, ptr: nat, e: nat, rec: Option<Record>)
    requires Reading(s, ptr, e) && s[ptr] == '<'
    ensures '\0' !in s && ptr + 1 <= |s| && ptr <= e
    ensures ptr == e ==> IsEor(s[ptr + 1..])
    ensures IsEor(s[ptr + 1..]) ==> ParseBody(s[ptr..e], rec) == rec
  {
    if ptr == e {
      EndTagFound(s, e);
    } else {
      LocalTag(s, ptr + 1, e);
      BodyAt(s, ptr, e, rec);
    }
  }

  lemma EndTagFound(s: string, e: nat)
    requires OccursAt(s, e, EOR)
    ensures IsEor(s[e + 1..])
  {
    EndChars(s, e);
    var u := s[e + 1..];
    assert forall i | 0 <= i < 4 :: UpperAll(u[..4])[i] == "EOR>"[i];
  }

  lemma SmallTimes()
    ensures FieldSize(TIME_ON) == 6 && FieldSize(TIME_OFF) == 6
  {
  }

  // ---- Records in the buffer ----

  lemma {:induction false} NotBelow(a: string, b: string)
    ensures !Contains(a + b, EOR_LOWER) ==> !Contains(a, EOR_LOWER)
  {
    if Contains(a, EOR_LOWER) {
      var k: nat :| OccursAt(a, k, EOR_LOWER);
      assert (a + b)[k..k + 5] == a[k..k + 5];
      assert OccursAt(a + b, k, EOR_LOWER);
    }
  }

  /** What is found in a part of the text is what is found in the whole. */
  lemma {:induction false} FirstInWhole(a: string, b: string, key: string)
    requires FirstFrom(a, 0, key) >= 0
    ensures FirstFrom(a + b, 0, key) == FirstFrom(a, 0, key)
  {
    var k := FirstFrom(a, 0, key);
    assert (a + b)[k..k + |key|] == a[k..k + |key|];
    assert OccursAt(a + b, k, key);
    OccursInPart(a, b, FirstFrom(a + b, 0, key), key);
  }

  lemma {:induction false} FirstInPart(a: string, b: string, key: string)
    requires 0 <= FirstFrom(a + b, 0, key) <= |a| - |key|
    ensures FirstFrom(a, 0, key) == FirstFrom(a + b, 0, key)
  {
    var k := FirstFrom(a + b, 0, key);
    assert a[k..k + |key|] == (a + b)[k..k + |key|];
    assert OccursAt(a, k, key);
    FirstInWhole(a, b, key);
  }

  lemma {:induction false} HeaderInBlock(file: string, pos: nat, block: nat, k: nat)
    requires pos <= |file| && (pos >= block || pos == |file|) && k == FirstFrom(file, 0, EOH) && k + 5 <= block
    ensures FirstFrom(file[..pos], 0, EOH) == k
  {
    assert file == file[..pos] + file[pos..] && |file[..pos]| == pos;
    FirstInPart(file[..pos], file[pos..], EOH);
  }

  /** A line end in front of a text does not matter. */
  lemma {:induction false} LineEndDropped(s: string)
    requires WellFormed(s) && s != "" && (s[0] == '\r' || s[0] == '\n')
    ensures WellFormed(s[1..]) && ReadAll(s[1..]) == ReadAll(s)
  {
    hide ParseBody, Fits;
    var p, s' := FirstFrom(s, 0, EOR), s[1..];
    FirstDropped(s, EOR);
    NotInDropped(s, EOR_LOWER);
    if p >= 0 {
      assert s'[..p - 1] == s[..p][1..] && s'[p + 4..] == s[p + 5..];
      CharDropped(s[..p], None);
    }
  }

  lemma DroppedAt(s: string, i: nat, key: string)
    requires s != ""
    ensures OccursAt(s[1..], i, key) <==> OccursAt(s, i + 1, key)
  {
    if i + |key| <= |s| - 1 { assert s[1..][i..i + |key|] == s[i + 1..i + 1 + |key|]; }
  }

  lemma NotInDropped(s: string, key: string)
    requires s != "" && !Contains(s, key)
    ensures !Contains(s[1..], key)
  {
    forall i: nat ensures !OccursAt(s[1..], i, key) { DroppedAt(s, i, key); }
  }

  lemma {:induction false} FirstDropped(s: string, key: string)
    requires s != "" && key != "" && s[0] != key[0]
    ensures var k := FirstFrom(s, 0, key);
      FirstFrom(s[1..], 0, key) == if k < 0 then -1 else k - 1
    ensures FirstFrom(s, 0, key) != 0
  {
    hide OccursAt;
    var k, s' := FirstFrom(s, 0, key), s[1..];
    NotAtStart(s, key);
    forall i: nat ensures OccursAt(s', i, key) <==> OccursAt(s, i + 1, key) { DroppedAt(s, i, key); }
    var j := FirstFrom(s', 0, key);
    if k >= 0 { assert OccursAt(s', k - 1, key); }
    if j >= 0 { assert OccursAt(s, j + 1, key); }
  }

  lemma NotAtStart(s: string, key: string)
    requires s != "" && key != "" && s[0] != key[0]
    ensures !OccursAt(s, 0, key)
  {
    if |key| <= |s| { assert s[0..|key|][0] == s[0]; }
  }

  lemma {:induction false} CharDropped(b: string, r: Option<Record>)
    requires b != "" && b[0] != '<'
    ensures ParseBody(b[1..], r) == ParseBody(b, r) && Fits(b[1..]) == Fits(b)
  {
    SkipText(b, r);
    SkipText(b[1..], r);
    var k := IndexOf(b, '<');
    IndexIs(b[1..], '<', k - 1);
    assert b[1..][k - 1..] == b[k..];
  }

  /** The first record of what is still to be read is in the buffer. */
  lemma {:induction false} RecordTaken(a: string, p: nat, b: string)
    requires AtRecord(a, b, p) && p + 5 <= |a|
    ensures Reading(a, 0, p) && WellFormed(a[p + 5..] + b) && '\0' !in a
    ensures ReadAll(a + b) == OneOf(ParseBody(a[..p], None)) + ReadAll(a[p + 5..] + b)
  {
    hide ParseBody, Fits;
    FirstInWhole(a, b, EOR);
    assert (a + b)[..p] == a[..p] == a[0..p] && (a + b)[p + 5..] == a[p + 5..] + b;
  }

  // ---- Writing ----

  /** `adif_record`. */
  method AdifRecord(rec: QsoDb.Rec) returns (record: string)
    ensures record == RecordText(Fields(rec))
  {
    hide Name, Decimal, FieldsText;
    ghost var r := Fields(rec);
    record := "";
    NoFields(r);
    for j := 0 to TABLE_ROWS
      invariant record + FieldsText(r, j) == FieldsText(r, 0)
    {
      MoreFields(record, r, j);
      var sFld := rec.Get(j);
      if sFld != "" {
        var recfield := "<" + Name(j) + ":" + Decimal(|sFld|) + ">";
        record := record + (recfield + sFld);
      }
    }
    record := record + EOR;
    record := record + "\n";
  }

  lemma NoFields(rec: Record)
    ensures FieldsText(rec, TABLE_ROWS) == "" && "" + FieldsText(rec, 0) == FieldsText(rec, 0)
  {
  }

  lemma MoreFields(record: string, rec: Record, j: nat)
    requires j < TABLE_ROWS
    ensures record + FieldsText(rec, j) ==
      record + (if rec[j] == "" then "" else FieldText(j, rec[j])) + FieldsText(rec, j + 1)
  {
    hide FieldText;
    var t := if rec[j] == "" then "" else FieldText(j, rec[j]);
    assert record + (t + FieldsText(rec, j + 1)) == record + t + FieldsText(rec, j + 1);
  }

  /** What `writelog_` prints before the `<EOH>`. */
  function HeaderText(file: string, program: string, version: string): string {
    "File: " + file + "\n" + ("<ADIF_VER:5>" + "2.2.7" + "\n")
    + HeaderLine("PROGRAMID", program) + HeaderLine("PROGRAMVERSION", version)
  }

  /** `writelog_`: the text of the whole file. On the way, the band of every record is completed in the database. */
  method WriteLog(file: string, program: string, version: string, db: QsoDb.Database) returns (text: string)
    requires db.Valid()
    modifies db.qsorec
    ensures db.Valid() && |db.Records()| == |old(db.Records())|
    ensures forall i | 0 <= i < |db.Records()| :: db.Records()[i] == QsoDb.CheckBand(db.bands, old(db.Records())[i])
    ensures text == HeaderText(file, program, version) + EOH + "\n" + LogText(AllFields(old(db.Records())))
  {
    hide HeaderText, RecordText, Fields, QsoDb.CheckBand, QsoDb.BandCompleted;
    ghost var s := db.Records();
    ghost var rs := AllFields(s);
    var records := "";
    for i := 0 to db.nbrrecs
      invariant db.Valid() && db.nbrrecs == old(db.nbrrecs) && |db.Records()| == |s|
      invariant forall k | 0 <= k < |s| :: db.Records()[k] == if k < i then QsoDb.CheckBand(db.bands, s[k]) else s[k]
      invariant records + LogText(rs[i..]) == LogText(rs)
    {
      var rec := db.qsorec[i];
      assert rec == db.Records()[i] == s[i];
      var record := AdifRecord(rec);
      assert rs[i..][1..] == rs[i + 1..] && LogText(rs[i..]) == record + LogText(rs[i + 1..]);
      records := records + record;
      db.QsoUpdRec(i, rec);
    }
    text := HeaderText(file, program, version) + EOH + "\n" + records;
  }

  lemma {:induction false} LineHasNoTag(pre: string, value: string, key: string)
    requires IsTag(key) && !Contains(value, key) && |pre| >= 5 && pre[4] != '>'
    requires forall k | 1 <= k < |pre| :: pre[k] != '<'
    ensures !Contains(pre + value + "\n", key)
  {
    forall k: nat ensures !OccursAt(pre + value + "\n", k, key) {
      var s := pre + value + "\n";
      if OccursAt(s, k, key) {
        CharAt(s, k, key, 0);
        CharAt(s, k, key, 4);
        assert s[|s| - 1] == '\n' && k + 5 <= |pre + value|;
        OccursInPart(pre + value, "\n", k, key);
        OccursInPart(pre, value, k, key);
      }
    }
  }

  /** A line of the header: a name in pointed brackets with the length of what follows. */
  function HeaderLine(name: string, value: string): string {
    "<" + name + ":" + Decimal(|value|) + ">" + value + "\n"
  }

  lemma {:induction false} HeaderLineHasNoEnd(name: string, value: string)
    requires !Contains(value, EOH) && |name| >= 4 && '<' !in name && '>' !in name
    ensures !Contains(HeaderLine(name, value), EOH)
  {
    hide Contains;
    TagsAreTags();
    var pre := "<" + name + ":" + Decimal(|value|) + ">";
    LengthPrefix("<" + name + ":", |value|);
    LineHasNoTag(pre, value, EOH);
  }

  /** The header has no end tag but its own, if none is in the names that it is made of. */
  lemma {:induction false} HeaderHasNoEnd(file: string, program: string, version: string)
    requires !Contains(file, EOH) && !Contains(program, EOH) && !Contains(version, EOH)
    ensures !Contains(HeaderText(file, program, version), EOH)
  {
    hide Contains, IsTag, OccursAt;
    TagsAreTags();
    var a := "File: " + file + "\n";
    var b := "<ADIF_VER:5>" + "2.2.7" + "\n";
    var c, d := HeaderLine("PROGRAMID", program), HeaderLine("PROGRAMVERSION", version);
    LineHasNoTag("File: ", file, EOH);
    VersionHasNoEnd();
    LineHasNoTag("<ADIF_VER:5>", "2.2.7", EOH);
    HeaderLineHasNoEnd("PROGRAMID", program);
    HeaderLineHasNoEnd("PROGRAMVERSION", version);
    NoStraddle(a, b, EOH);
    NoStraddle(a + b, c, EOH);
    NoStraddle(a + b + c, d, EOH);
  }

  lemma VersionHasNoEnd()
    ensures !Contains("2.2.7", EOH)
  {
    forall k: nat ensures !OccursAt("2.2.7", k, EOH) {
      if OccursAt("2.2.7", k, EOH) { CharAt("2.2.7", k, EOH, 0); }
    }
  }

  lemma LengthPrefix(start: string, n: nat)
    requires |start| >= 5 && start[4] != '>' && forall k | 1 <= k < |start| :: start[k] != '<'
    ensures var p := start + Decimal(n) + ">"; |p| >= 5 && p[4] != '>' && forall k | 1 <= k < |p| :: p[k] != '<'
  {
  }

  /** Writing a log and reading it back into any database, in blocks of any size that holds the header, appends exactly the
      records, field for field. */
  method WriteAndRead(file: string, program: string, version: string, from: QsoDb.Database, to: QsoDb.Database, block: nat)
    requires from.Valid() && to.Valid() && from != to && from.qsorec != to.qsorec
    requires block > 0 && forall r | r in from.Records() :: WritableRecord(Fields(r))
    requires !Contains(file, EOH) && !Contains(program, EOH) && !Contains(version, EOH)
    requires '\0' !in file && '\0' !in program && '\0' !in version
    requires |HeaderText(file, program, version)| + 5 <= block
    modifies from.qsorec, to, to.qsorec
    ensures to.Valid() && to.Records() == old(to.Records()) + ToRecs(AllFields(old(from.Records())))
  {
    hide WellFormed, ReadAll, Contains, HeaderText, LogText, Fields, WritableRecord;
    ghost var rs := AllFields(from.Records());
    var text := WriteLog(file, program, version, from);
    var src := new Source(text);
    var fastlookup, maxlen := InitFields();
    var reader := new AdifReader(fastlookup, maxlen, to);
    TextReadable(file, program, version, rs, text);
    reader.ReadFile(src, block);
  }

  /** Reading a log that another program has written, into any database: one record is appended for each part of it that has
      a field, and it holds what is kept of the last value given for each of its fields. */
  method ReadOther(header: string, ps: seq<Part>, tail: string, to: QsoDb.Database, block: nat)
    returns (ghost rs: seq<Record>)
    requires to.Valid() && block > 0 && |header| + 5 <= block
    requires !Contains(header, EOH) && '\0' !in header
    requires (forall p | p in ps :: PartOk(p)) && Gap(tail) && '\0' !in tail
    modifies to, to.qsorec
    ensures to.Valid() && to.Records() == old(to.Records()) + ToRecs(rs) && LogHolds(ps, rs)
  {
    hide WellFormed, ReadAll, Contains, LogOf, LogHolds;
    var text := header + EOH + LogOf(ps, tail);
    var src := new Source(text);
    var fastlookup, maxlen := InitFields();
    var reader := new AdifReader(fastlookup, maxlen, to);
    TagsAreTags();
    NoNulInLogOf(ps, tail);
    AfterHeaderText(header, LogOf(ps, tail), text);
    FirstEnd(header, EOH, LogOf(ps, tail));
    rs := LogRead(ps, tail);
    reader.ReadFile(src, block);
  }

  lemma {:induction false} NoNulInFields(r: Record, j: nat)
    requires j <= TABLE_ROWS && forall i: nat | i < TABLE_ROWS :: '\0' !in r[i]
    ensures '\0' !in FieldsText(r, j)
    decreases TABLE_ROWS - j
  {
    hide FieldText;
    if j < TABLE_ROWS {
      NoNulInFields(r, j + 1);
      NoNulInField(j, r[j]);
    }
  }

  lemma NoNulInField(j: nat, value: string)
    requires j < TABLE_ROWS && '\0' !in value
    ensures '\0' !in FieldText(j, value)
  {
    hide Name, Decimal;
    NameChars(j);
    assert '\0' !in Name(j) && '\0' !in Decimal(|value|);
  }

  lemma {:induction false} NoNulInLog(rs: seq<Record>)
    requires forall r | r in rs :: WritableRecord(r)
    ensures '\0' !in LogText(rs)
  {
    hide Contains, FieldsText;
    if rs != [] {
      NoNulInLog(rs[1..]);
      assert rs[0] in rs && WritableRecord(rs[0]);
      forall i: nat | i < TABLE_ROWS ensures '\0' !in rs[0][i] { assert Writable(i, rs[0][i]); }
      NoNulInFields(rs[0], 0);
    }
  }

  /** A written file meets the reader's conditions. */
  lemma {:induction false} TextReadable(file: string, program: string, version: string, db: seq<Record>, text: string)
    requires forall r | r in db :: WritableRecord(r)
    requires !Contains(file, EOH) && !Contains(program, EOH) && !Contains(version, EOH)
    requires '\0' !in file && '\0' !in program && '\0' !in version
    requires text == HeaderText(file, program, version) + EOH + "\n" + LogText(db)
    ensures var k := |HeaderText(file, program, version)|;
      && FirstFrom(text, 0, EOH) == k && '\0' !in text && k + 5 <= |text|
      && WellFormed(text[k + 5..]) && ReadAll(text[k + 5..]) == db
  {
    hide WellFormed, ReadAll, Contains, HeaderText, LogText, FirstFrom;
    var h := HeaderText(file, program, version);
    NoNulInHeader(file, program, version);
    HeaderHasNoEnd(file, program, version);
    NoNulInLog(db);
    TagsAreTags();
    var rest := "\n" + LogText(db);
    assert text == h + EOH + rest;
    AfterHeaderText(h, rest, text);
    FirstEnd(h, EOH, rest);
    LogReadBack("\n", db);
  }

  lemma AfterHeaderText(h: string, rest: string, text: string)
    requires text == h + EOH + rest
    ensures |h| + 5 <= |text| && text[|h| + 5..] == rest && ('\0' !in h && '\0' !in rest ==> '\0' !in text)
  {
  }

  lemma NoNulInHeader(file: string, program: string, version: string)
    requires '\0' !in file && '\0' !in program && '\0' !in version
    ensures '\0' !in HeaderText(file, program, version)
  {
    var p, v := Decimal(|program|), Decimal(|version|);
    assert '\0' !in p && '\0' !in v;
  }
}
