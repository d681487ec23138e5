/** Reading back a written log gives exactly the records that were written. */
module AdifRoundTrip {
  import opened AdifTable
  import opened Helpers
  import opened AdifText

  /** The end tags: five characters, of which only the first is a `<`, and none is a colon. */
  ghost predicate IsTag(key: string) {
    && |key| == 5 && key[0] == '<' && key[4] == '>' && forall i | 1 <= i < 5 :: key[i] != '<' && key[i] != ':'
  }

  lemma TagsAreTags()
    ensures IsTag(EOR) && IsTag(EOR_LOWER) && IsTag(EOH) && IsTag(EOH_LOWER)
  {
  }

  lemma CharAt(s: string, k: nat, key: string, d: nat)
    requires OccursAt(s, k, key) && d < |key|
    ensures k + d < |s| && s[k + d] == key[d]
  {
    assert s[k..k + |key|][d] == s[k + d];
  }

  /** An occurrence in `a + b` that does not begin inside `b` and end beyond `a` is one in `a`. */
  lemma OccursInPart(a: string, b: string, k: nat, key: string)
    requires OccursAt(a + b, k, key)
    ensures k + |key| <= |a| ==> OccursAt(a, k, key)
    ensures k >= |a| ==> OccursAt(b, k - |a|, key)
  {
    if k + |key| <= |a| { assert (a + b)[k..k + |key|] == a[k..k + |key|]; }
    if k >= |a| { assert (a + b)[k..k + |key|] == b[k - |a|..k - |a| + |key|]; }
  }

  /** A tag that occurs in neither part occurs in none of two pieces put together, if the second starts with a tag. */
  lemma NoStraddle(a: string, b: string, key: string)
    requires IsTag(key) && !Contains(a, key) && !Contains(b, key) && (b == "" || b[0] == '<')
    ensures !Contains(a + b, key)
  {
    forall k: nat ensures !OccursAt(a + b, k, key) {
      if OccursAt(a + b, k, key) {
        OccursInPart(a, b, k, key);
        if k < |a| < k + 5 { CharAt(a + b, k, key, |a| - k); }
      }
    }
  }

  lemma {:induction false} TagHasNoTag(i: nat, name: string, kind: string, size: nat, value: string, key: string)
    requires i < TABLE_ROWS && Spells(Name(i), name) && Kind(kind) && IsTag(key) && !Contains(value, key)
    ensures !Contains("<" + TagHead(name, kind, size) + value, key)
  {
    hide Name, Spells;
    NameChars(i);
    SpelledName(Name(i), name);
    var n, d := name, Decimal(size) + kind;
    var a := "<" + n + ":" + d + ">";
    assert "<" + TagHead(name, kind, size) == a;
    assert a[4] != '>' by { assert a[4] == (n + ":")[3]; }
    forall k | 1 <= k < |a| ensures a[k] != '<' {
      if k < 1 + |n| { assert a[k] == n[k - 1]; } else if 1 + |n| < k < |a| - 1 { assert a[k] == d[k - |n| - 2] && a[k] in d; }
    }
    forall k: nat ensures !OccursAt(a + value, k, key) {
      if OccursAt(a + value, k, key) {
        CharAt(a + value, k, key, 0);
        CharAt(a + value, k, key, 4);
        assert k >= |a|;
        OccursInPart(a, value, k, key);
      }
    }
  }

  lemma {:induction false} FieldHasNoTag(i: nat, value: string, key: string)
    requires i < TABLE_ROWS && IsTag(key) && !Contains(value, key)
    ensures !Contains(FieldText(i, value), key)
  {
    hide Name, Decimal, Contains;
    var d := Decimal(|value|);
    assert d + "" == d && FieldText(i, value) == "<" + TagHead(Name(i), "", |value|) + value;
    TagHasNoTag(i, Name(i), "", |value|, value, key);
  }

  lemma {:induction false} FieldsHaveNoTag(r: Record, j: nat, key: string)
    requires j <= TABLE_ROWS && IsTag(key) && forall i: nat | i < TABLE_ROWS :: !Contains(r[i], key)
    ensures !Contains(FieldsText(r, j), key)
    ensures FieldsText(r, j) == "" || FieldsText(r, j)[0] == '<'
    decreases TABLE_ROWS - j
  {
    hide Contains, FieldText;
    if j == TABLE_ROWS {
      EmptyHasNoTag(key);
    } else {
      FieldsHaveNoTag(r, j + 1, key);
      if r[j] != "" {
        FieldHasNoTag(j, r[j], key);
        FieldStarts(j, r[j]);
        NoStraddle(FieldText(j, r[j]), FieldsText(r, j + 1), key);
      } else {
        assert FieldsText(r, j) == FieldsText(r, j + 1);
      }
    }
  }

  lemma FieldStarts(i: nat, value: string)
    requires i < TABLE_ROWS
    ensures FieldText(i, value) != "" && FieldText(i, value)[0] == '<'
  {
    hide Name, Decimal;
  }

  lemma EmptyHasNoTag(key: string)
    requires |key| > 0
    ensures !Contains("", key)
  {
  }

  /** Text between tags and between records: a line end, for example. */
  predicate Gap(nl: string) {
    '<' !in nl
  }

  lemma GapHasNoTag(nl: string, s: string, key: string)
    requires Gap(nl) && IsTag(key) && !Contains(s, key)
    ensures !Contains(nl + s, key)
  {
    forall k: nat ensures !OccursAt(nl + s, k, key) {
      if OccursAt(nl + s, k, key) {
        CharAt(nl + s, k, key, 0);
        assert k >= |nl|;
        OccursInPart(nl, s, k, key);
      }
    }
  }

  lemma NewRest(rs: seq<Record>)
    requires rs != []
    ensures LogText(rs) == FieldsText(rs[0], 0) + EOR + ("\n" + LogText(rs[1..]))
  {
  }

  lemma {:induction false} LogHasNoLower(rs: seq<Record>)
    requires forall r | r in rs :: WritableRecord(r)
    ensures !Contains(LogText(rs), EOR_LOWER)
    decreases |rs|
  {
    hide Contains, LogText, FieldsText, Writable;
    TagsAreTags();
    if rs == [] {
      EmptyHasNoTag(EOR_LOWER);
      assert LogText(rs) == "" by { EmptyLogText(); }
    } else {
      LogHasNoLower(rs[1..]);
      assert rs[0] in rs && WritableRecord(rs[0]);
      ValuesHaveNoTag(rs[0]);
      FieldsHaveNoTag(rs[0], 0, EOR_LOWER);
      NewRest(rs);
      var rest := "\n" + LogText(rs[1..]);
      GapHasNoTag("\n", LogText(rs[1..]), EOR_LOWER);
      EndHasNoLower(rest);
      NoStraddle(FieldsText(rs[0], 0), EOR + rest, EOR_LOWER);
      assert FieldsText(rs[0], 0) + EOR + rest == FieldsText(rs[0], 0) + (EOR + rest);
    }
  }

  lemma EmptyLogText()
    ensures LogText([]) == ""
  {
  }

  lemma ValuesHaveNoTag(r: Record)
    requires WritableRecord(r)
    ensures forall i: nat | i < TABLE_ROWS :: !Contains(r[i], EOR) && !Contains(r[i], EOR_LOWER)
  {
    hide Contains;
    forall i: nat | i < TABLE_ROWS ensures !Contains(r[i], EOR) && !Contains(r[i], EOR_LOWER) {
      assert Writable(i, r[i]);
    }
  }

  lemma EndHasNoLower(s: string)
    requires !Contains(s, EOR_LOWER)
    ensures !Contains(EOR + s, EOR_LOWER)
  {
    forall k: nat ensures !OccursAt(EOR + s, k, EOR_LOWER) {
      if OccursAt(EOR + s, k, EOR_LOWER) {
        OccursInPart(EOR, s, k, EOR_LOWER);
        CharAt(EOR + s, k, EOR_LOWER, 0);
        CharAt(EOR + s, k, EOR_LOWER, 1);
      }
    }
  }

  /** The first end tag after a piece of text without one. */
  lemma FirstEnd(a: string, key: string, s: string)
    requires IsTag(key) && !Contains(a, key)
    ensures FirstFrom(a + key + s, 0, key) == |a|
  {
    var t := a + key + s;
    assert OccursAt(t, |a|, key) by { assert t[|a|..|a| + 5] == key; }
    var k := FirstFrom(t, 0, key);
    if k < |a| {
      assert t == a + (key + s);
      OccursInPart(a, key + s, k, key);
      if k + 5 > |a| { CharAt(t, k, key, |a| - k); }
    }
  }

  /** Such text in front does not change what is read. */
  lemma {:induction false} GapSkipped(nl: string, b: string, r: Option<Record>)
    requires Gap(nl)
    ensures ParseBody(nl + b, r) == ParseBody(b, r) && Fits(nl + b) == Fits(b)
  {
    hide ParseBody, Fits;
    var k := IndexOf(b, '<');
    IndexIs(nl + b, '<', |nl| + k);
    if k < |b| { assert (nl + b)[|nl| + k + 1..] == b[k + 1..]; }
    SameAfterMark(nl + b, b, r);
  }

  /** What stands before the first `<` does not matter. */
  lemma {:induction false} SameAfterMark(s: string, b: string, r: Option<Record>)
    requires var i, k := IndexOf(s, '<'), IndexOf(b, '<');
      if k < |b| then i < |s| && s[i + 1..] == b[k + 1..] else i == |s|
    ensures ParseBody(s, r) == ParseBody(b, r) && Fits(s) == Fits(b)
  {
    hide IndexOf, ReadTag, Put, Stored;
  }

  /** The round trip: the text of any writable records is well-formed and reads back as those records. */
  lemma {:induction false} LogReadBack(nl: string, rs: seq<Record>)
    requires Gap(nl) && forall r | r in rs :: WritableRecord(r)
    ensures ReadAll(nl + LogText(rs)) == rs && WellFormed(nl + LogText(rs))
    decreases |rs|
  {
    hide Contains, ParseBody, Fits, FieldsText, LogText, ReadAll, WellFormed;
    TagsAreTags();
    LogHasNoLower(rs);
    GapHasNoTag(nl, LogText(rs), EOR_LOWER);
    if rs == [] {
      EmptyLog(nl);
    } else {
      var s, b, rest := nl + LogText(rs), FieldsText(rs[0], 0), "\n" + LogText(rs[1..]);
      assert rs[0] in rs && WritableRecord(rs[0]);
      NewRest(rs);
      assert s == nl + b + EOR + rest;
      ValuesHaveNoTag(rs[0]);
      FieldsHaveNoTag(rs[0], 0, EOR);
      GapHasNoTag(nl, b, EOR);
      FirstEnd(nl + b, EOR, rest);
      assert s[..|nl + b|] == nl + b && s[|nl + b| + 5..] == rest;
      RecordReadBack(nl, rs[0]);
      LogReadBack("\n", rs[1..]);
      OneMore(s, |nl + b|, Some(rs[0]), rs[1..]);
      assert [rs[0]] + rs[1..] == rs;
    }
  }

  lemma EmptyLog(nl: string)
    requires Gap(nl)
    ensures ReadAll(nl + LogText([])) == [] && WellFormed(nl + LogText([]))
  {
    hide Contains;
    TagsAreTags();
    NoTagInGap(nl, EOR_LOWER);
    NoEndIn(nl);
    assert nl + LogText([]) == nl;
  }

  lemma NoTagInGap(nl: string, key: string)
    requires Gap(nl) && IsTag(key)
    ensures !Contains(nl, key)
  {
    forall k: nat ensures !OccursAt(nl, k, key) {
      if OccursAt(nl, k, key) { CharAt(nl, k, key, 0); }
    }
  }

  lemma NoEndIn(nl: string)
    requires Gap(nl)
    ensures FirstFrom(nl, 0, EOR) == -1
  {
    TagsAreTags();
    NoTagInGap(nl, EOR);
  }

  lemma {:induction false} OneMore(s: string, p: nat, r: Option<Record>, more: seq<Record>)
    requires p + 5 <= |s| && FirstFrom(s, 0, EOR) == p && !Contains(s, EOR_LOWER)
    requires ParseBody(s[..p], None) == r && Fits(s[..p])
    requires ReadAll(s[p + 5..]) == more && WellFormed(s[p + 5..])
    ensures ReadAll(s) == (if r.Some? then [r.value] else []) + more && WellFormed(s)
  {
    hide ParseBody, Fits, Contains;
  }

  lemma {:induction false} RecordReadBack(nl: string, r: Record)
    requires Gap(nl) && WritableRecord(r)
    ensures ParseBody(nl + FieldsText(r, 0), None) == Some(r) && Fits(nl + FieldsText(r, 0))
  {
    hide ParseBody, Fits, FieldsText;
    FieldsReadBack(r, 0, None);
    GapSkipped(nl, FieldsText(r, 0), None);
    MergeIs(None, r, 0);
    var m := Merge(None, r, 0);
    assert m.Some? && m.value == r;
  }
}
