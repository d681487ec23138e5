/** Logs that other programs have written: names of fields in small letters, a type behind the length, values of any length,
    fields in any order, and text between them. What is kept of them is said without the reader's own functions. */
module AdifOther {
  import opened AdifTable
  import opened Helpers
  import opened AdifText
  import opened AdifRoundTrip

  /** A field of the table as it stands in the file, with the text between its value and the next tag. */
  datatype Given = Given(field: nat, name: string, kind: string, value: string, gap: string)

  ghost predicate GivenOk(x: Given) {
    && x.field < TABLE_ROWS && Spells(Name(x.field), x.name) && Kind(x.kind) && Gap(x.gap)
    && !Contains(x.value + x.gap, EOR) && !Contains(x.value + x.gap, EOR_LOWER)
    && '\0' !in x.value && '\0' !in x.gap
  }

  function GivenText(x: Given): string {
    "<" + TagText(x.name, x.kind, x.value) + x.gap
  }

  function AllText(xs: seq<Given>): string {
    if xs == [] then "" else GivenText(xs[0]) + AllText(xs[1..])
  }

  // ---- What a record holds ----

  /** `xs[k]` is the last one given for its field. */
  predicate Last(xs: seq<Given>, k: nat) {
    k < |xs| && forall m | k < m < |xs| :: xs[m].field != xs[k].field
  }

  /** Every field holds what is kept of the last value given for it; one without is as it was. */
  ghost predicate Holds(xs: seq<Given>, before: Record, r: Record) {
    && (forall k: nat | Last(xs, k) && xs[k].field < TABLE_ROWS :: Keeps(xs[k].field, xs[k].value, r[xs[k].field]))
    && (forall i | 0 <= i < TABLE_ROWS && (forall k | 0 <= k < |xs| :: xs[k].field != i) :: r[i] == before[i])
  }

  lemma {:induction false} OneHeld(xs: seq<Given>, before: Record, r: Record, v: string)
    requires xs != [] && xs[0].field < TABLE_ROWS && Keeps(xs[0].field, xs[0].value, v)
    requires Holds(xs[1..], before[xs[0].field := v], r)
    ensures Holds(xs, before, r)
  {
    hide Keeps;
    var rest, i := xs[1..], xs[0].field;
    forall k: nat | Last(xs, k) && xs[k].field < TABLE_ROWS
      ensures Keeps(xs[k].field, xs[k].value, r[xs[k].field])
    {
      if k > 0 {
        assert rest[k - 1] == xs[k] && Last(rest, k - 1);
      } else {
        forall m | 0 <= m < |rest| ensures rest[m].field != i { assert rest[m] == xs[m + 1]; }
      }
    }
    forall j | 0 <= j < TABLE_ROWS && (forall k | 0 <= k < |xs| :: xs[k].field != j)
      ensures r[j] == before[j]
    {
      forall m | 0 <= m < |rest| ensures rest[m].field != j { assert rest[m] == xs[m + 1]; }
    }
  }

  function Fresh(acc: Option<Record>): Record {
    if acc.Some? then acc.value else BLANK
  }

  /** The tags of a record are read one after the other, whoever has written them. */
  lemma {:induction false} AllRead(xs: seq<Given>, acc: Option<Record>) returns (r: Option<Record>)
    requires forall x | x in xs :: GivenOk(x)
    ensures ParseBody(AllText(xs), acc) == r && Fits(AllText(xs))
    ensures (r.Some? <==> acc.Some? || xs != []) && Holds(xs, Fresh(acc), Fresh(r))
    decreases |xs|
  {
    hide ParseBody, Fits, ReadTag, Keeps, Stored, GivenText, Contains;
    if xs == [] {
      NothingRead(acc);
      r := acc;
    } else {
      var x, more := xs[0], AllText(xs[1..]);
      assert GivenOk(x);
      GivenRead(x, more, acc);
      r := AllRead(xs[1..], Some(Put(acc, x.field, Stored(x.field, x.value))));
      StoredKeeps(x.field, x.value);
      OneHeld(xs, Fresh(acc), Fresh(r), Stored(x.field, x.value));
    }
  }

  lemma {:induction false} GivenRead(x: Given, more: string, acc: Option<Record>)
    requires GivenOk(x)
    ensures ParseBody(GivenText(x) + more, acc) == ParseBody(more, Some(Put(acc, x.field, Stored(x.field, x.value))))
    ensures Fits(GivenText(x) + more) == Fits(more)
  {
    hide ParseBody, Fits, ReadTag, Stored, Put, Decimal, Contains;
    var u, at := TagText(x.name, x.kind, x.value) + (x.gap + more), |TagHead(x.name, x.kind, |x.value|)|;
    assert GivenText(x) + more == "<" + u;
    TagReadBack(x.field, x.name, x.kind, x.value, x.gap + more);
    assert u[at..at + |x.value|] == x.value && u[at + |x.value|..] == x.gap + more;
    FieldTaken(u, x.field, |x.value|, at, acc);
    GapSkipped(x.gap, more, Some(Put(acc, x.field, Stored(x.field, x.value))));
  }

  // ---- Whole logs ----

  /** A record of such a log, with the text in front of its first tag. */
  datatype Part = Part(lead: string, fields: seq<Given>)

  ghost predicate PartOk(p: Part) {
    Gap(p.lead) && '\0' !in p.lead && forall x | x in p.fields :: GivenOk(x)
  }

  function LogOf(ps: seq<Part>, tail: string): string {
    if ps == [] then tail else ps[0].lead + AllText(ps[0].fields) + EOR + LogOf(ps[1..], tail)
  }

  /** One record for each part that has a field, in order. */
  ghost predicate LogHolds(ps: seq<Part>, rs: seq<Record>)
    decreases |ps|
  {
    if ps == [] then rs == []
    else if ps[0].fields == [] then LogHolds(ps[1..], rs)
    else rs != [] && Holds(ps[0].fields, BLANK, rs[0]) && LogHolds(ps[1..], rs[1..])
  }

  lemma {:induction false} AllHaveNoTag(xs: seq<Given>, key: string)
    requires (forall x | x in xs :: GivenOk(x)) && (key == EOR || key == EOR_LOWER)
    ensures !Contains(AllText(xs), key)
    ensures AllText(xs) == "" || AllText(xs)[0] == '<'
    decreases |xs|
  {
    hide Contains;
    TagsAreTags();
    if xs == [] {
      EmptyHasNoTag(key);
    } else {
      var x := xs[0];
      assert GivenOk(x);
      AllHaveNoTag(xs[1..], key);
      TagHasNoTag(x.field, x.name, x.kind, |x.value|, x.value + x.gap, key);
      GivenParts(x);
      NoStraddle(GivenText(x), AllText(xs[1..]), key);
    }
  }

  lemma GivenParts(x: Given)
    ensures GivenText(x) == "<" + TagHead(x.name, x.kind, |x.value|) + (x.value + x.gap) && GivenText(x)[0] == '<'
  {
    hide Decimal;
  }

  lemma {:induction false} LogHasNoLowerTag(ps: seq<Part>, tail: string)
    requires (forall p | p in ps :: PartOk(p)) && Gap(tail)
    ensures !Contains(LogOf(ps, tail), EOR_LOWER)
    decreases |ps|
  {
    hide Contains, AllText;
    TagsAreTags();
    if ps == [] {
      NoTagInGap(tail, EOR_LOWER);
    } else {
      var p, rest := ps[0], LogOf(ps[1..], tail);
      assert PartOk(p);
      LogHasNoLowerTag(ps[1..], tail);
      AllHaveNoTag(p.fields, EOR_LOWER);
      EndHasNoLower(rest);
      NoStraddle(AllText(p.fields), EOR + rest, EOR_LOWER);
      GapHasNoTag(p.lead, AllText(p.fields) + (EOR + rest), EOR_LOWER);
      assert LogOf(ps, tail) == p.lead + (AllText(p.fields) + (EOR + rest));
    }
  }

  /** Every log of another program is well-formed and is read as what its tags say. */
  lemma {:induction false} LogRead(ps: seq<Part>, tail: string) returns (rs: seq<Record>)
    requires (forall p | p in ps :: PartOk(p)) && Gap(tail)
    ensures ReadAll(LogOf(ps, tail)) == rs && WellFormed(LogOf(ps, tail)) && LogHolds(ps, rs)
    decreases |ps|
  {
    hide Contains, ParseBody, Fits, AllText, Holds, ReadAll, WellFormed, FirstFrom;
    TagsAreTags();
    LogHasNoLowerTag(ps, tail);
    var s := LogOf(ps, tail);
    if ps == [] {
      NothingToRead(tail);
      rs := [];
    } else {
      var p, rest := ps[0], LogOf(ps[1..], tail);
      var b := p.lead + AllText(p.fields);
      assert PartOk(p) && s == b + EOR + rest;
      AllHaveNoTag(p.fields, EOR);
      GapHasNoTag(p.lead, AllText(p.fields), EOR);
      FirstEnd(b, EOR, rest);
      assert s[..|b|] == b && s[|b| + 5..] == rest;
      var r := AllRead(p.fields, None);
      GapSkipped(p.lead, AllText(p.fields), None);
      var more := LogRead(ps[1..], tail);
      OneMore(s, |b|, r, more);
      rs := (if r.Some? then [r.value] else []) + more;
      if r.Some? { assert rs[0] == r.value && rs[1..] == more; } else { assert rs == more; }
    }
  }

  lemma NothingToRead(tail: string)
    requires Gap(tail)
    ensures ReadAll(tail) == [] && WellFormed(tail)
  {
    hide Contains;
    TagsAreTags();
    NoTagInGap(tail, EOR_LOWER);
    NoEndIn(tail);
  }

  lemma {:induction false} NoNulInAll(xs: seq<Given>)
    requires forall x | x in xs :: GivenOk(x)
    ensures '\0' !in AllText(xs)
    decreases |xs|
  {
    hide GivenText, Contains;
    if xs != [] {
      assert GivenOk(xs[0]);
      NoNulInGiven(xs[0]);
      NoNulInAll(xs[1..]);
    }
  }

  lemma NoNulInGiven(x: Given)
    requires GivenOk(x)
    ensures '\0' !in GivenText(x)
  {
    hide Name, Decimal, Contains, Spells;
    NameChars(x.field);
    SpelledName(Name(x.field), x.name);
    assert '\0' !in Decimal(|x.value|);
  }

  lemma {:induction false} NoNulInLogOf(ps: seq<Part>, tail: string)
    requires (forall p | p in ps :: PartOk(p)) && '\0' !in tail
    ensures '\0' !in LogOf(ps, tail)
    decreases |ps|
  {
    hide AllText, GivenOk;
    if ps != [] {
      assert PartOk(ps[0]);
      NoNulInAll(ps[0].fields);
      NoNulInLogOf(ps[1..], tail);
    }
  }

  // ---- The end tag ----

  /** The end tag in any mixture of capital and small letters ends the record. */
  lemma {:induction false} EndInAnyCase(s: string, rest: string, acc: Option<Record>)
    requires Spells("EOR>", s)
    ensures ParseBody("<" + s + rest, acc) == acc
  {
    var u := s + rest;
    IndexIs("<" + u, '<', 0);
    assert ("<" + u)[1..] == u && "<" + s + rest == "<" + u;
    assert u[..4] == s;
    assert UpperAll(s) == "EOR>";
    hide Lookup, IndexOf;
    assert ReadTag(u).EndTag?;
  }
}
