/** The text of an ADIF log: what is written for a record, and what a reader makes of the text between one `<EOR>` and
    the next. */
module AdifText {
  import opened AdifTable
  import opened Helpers

  /** A record, by the rows of the field table. */
  type Record = r: seq<string> | |r| == TABLE_ROWS witness Blanks(TABLE_ROWS)

  const BLANK: Record := Blanks(TABLE_ROWS)

  const EOR := "<EOR>"
  const EOR_LOWER := "<eor>"
  const EOH := "<EOH>"
  const EOH_LOWER := "<eoh>"

  // ---- Characters and numbers ----

  /** The first position of `c`, or the length of `s`. */
  function IndexOf(s: string, c: char): (k: nat)
    ensures k <= |s| && (k < |s| ==> s[k] == c) && forall i | 0 <= i < k :: s[i] != c
  {
    if s == "" || s[0] == c then 0 else 1 + IndexOf(s[1..], c)
  }

  lemma IndexIs(s: string, c: char, k: nat)
    requires k <= |s| && (k < |s| ==> s[k] == c) && forall i | 0 <= i < k :: s[i] != c
    ensures IndexOf(s, c) == k
  {
  }

  function Upper(c: char): char {
    if 'a' <= c <= 'z' then (c as int - 32) as char else c
  }

  function UpperAll(s: string): (u: string)
    ensures |u| == |s|
  {
    seq(|s|, i requires 0 <= i < |s| => Upper(s[i]))
  }

  predicate IsDigit(c: char) {
    '0' <= c <= '9'
  }

  /** The number that the digits in `s` make, whatever stands between them, after `n`. */
  function Digits(s: string, n: nat): nat {
    if s == "" then n
    else Digits(s[1..], if IsDigit(s[0]) then n * 10 + (s[0] as int - '0' as int) else n)
  }

  /** `n` in decimal. */
  function Decimal(n: nat): (s: string)
    ensures |s| > 0 && forall i | 0 <= i < |s| :: IsDigit(s[i])
  {
    if n < 10 then [('0' as int + n) as char] else Decimal(n / 10) + [('0' as int + n % 10) as char]
  }

  lemma {:induction false} DigitsConcat(s: string, d: char, n: nat)
    requires IsDigit(d)
    ensures Digits(s + [d], n) == Digits(s, n) * 10 + (d as int - '0' as int)
    decreases |s|
  {
    if s != "" {
      assert (s + [d])[1..] == s[1..] + [d];
      DigitsConcat(s[1..], d, if IsDigit(s[0]) then n * 10 + (s[0] as int - '0' as int) else n);
    }
  }

  /** A printed length is read back. */
  lemma {:induction false} DigitsOfDecimal(n: nat)
    ensures Digits(Decimal(n), 0) == n
  {
    if n >= 10 {
      DigitsOfDecimal(n / 10);
      DigitsConcat(Decimal(n / 10), ('0' as int + n % 10) as char, 0);
    }
  }

  // ---- Reading ----

  /** What is stored for a value as it stands in the file: cut to the field's size, times filled up with zeros. */
  function Stored(i: nat, value: string): string {
    if |value| > FieldSize(i) then value[..FieldSize(i)]
    else if (i == TIME_ON || i == TIME_OFF) && |value| < 6 then value + seq(6 - |value|, _ => '0')
    else value
  }

  /** A tag: the end of the record, a field whose value of `size` characters starts at `at`, or something else, after
      which reading goes on with `rest`. */
  datatype Tag = EndTag | FieldTag(i: nat, size: nat, at: nat) | Other(rest: string)

  predicate IsEor(u: string) {
    |u| >= 4 && UpperAll(u[..4]) == "EOR>"
  }

  /** The tag whose text, after the `<`, starts with `u`. The name is upper-cased where it stands. */
  function ReadTag(u: string): (t: Tag)
    ensures t.FieldTag? ==> t.i < TABLE_ROWS
    ensures t.Other? ==> |t.rest| == |u|
  {
    var c, g := IndexOf(u, ':'), IndexOf(u, '>');
    if IsEor(u) then EndTag
    else if c >= g then Other(u)
    else
      var i := Lookup(UpperAll(u[..c]));
      if i >= 0 then FieldTag(i, Digits(u[c + 1..g], 0), g + 1) else Other(UpperAll(u[..c]) + u[c..])
  }

  function Put(r: Option<Record>, i: nat, value: string): Record
    requires i < TABLE_ROWS
  {
    (if r.Some? then r.value else BLANK)[i := value]
  }

  /** The record that the text `b`, up to its `<EOR>`, adds to `r`. */
  function ParseBody(b: string, r: Option<Record>): Option<Record>
    decreases |b|
  {
    var k := IndexOf(b, '<');
    if k == |b| then r
    else
      var u := b[k + 1..];
      match ReadTag(u)
      case EndTag => r
      case Other(rest) => ParseBody(rest, r)
      case FieldTag(i, size, at) =>
        if at + size <= |u| then ParseBody(u[at + size..], Some(Put(r, i, Stored(i, u[at..at + size])))) else r
  }

  /** Every field in `b` has its whole value in `b`. */
  predicate Fits(b: string)
    decreases |b|
  {
    var k := IndexOf(b, '<');
    k == |b| || (
      var u := b[k + 1..];
      match ReadTag(u)
      case EndTag => true
      case Other(rest) => Fits(rest)
      case FieldTag(i, size, at) => at + size <= |u| && Fits(u[at + size..]))
  }

  /** The records of a text: one for each piece that ends with `<EOR>` and has a field. */
  function ReadAll(s: string): seq<Record>
    decreases |s|
  {
    var p := FirstFrom(s, 0, EOR);
    if p < 0 then []
    else
      var r := ParseBody(s[..p], None);
      (if r.Some? then [r.value] else []) + ReadAll(s[p + 5..])
  }

  ghost predicate Contains(s: string, key: string) {
    exists k: nat :: OccursAt(s, k, key)
  }

  /** All records end with `<EOR>` in capitals, and no value reaches beyond it. */
  ghost predicate WellFormed(s: string)
    decreases |s|
  {
    && !Contains(s, EOR_LOWER)
    && var p := FirstFrom(s, 0, EOR);
       (p >= 0 ==> Fits(s[..p]) && WellFormed(s[p + 5..]))
  }

  // ---- Writing ----

  function FieldText(i: nat, value: string): string {
    "<" + Name(i) + ":" + Decimal(|value|) + ">" + value
  }

  /** The text of the non-empty fields from row `j` on. */
  function FieldsText(r: Record, j: nat): string
    requires j <= TABLE_ROWS
    decreases TABLE_ROWS - j
  {
    if j == TABLE_ROWS then ""
    else (if r[j] == "" then "" else FieldText(j, r[j])) + FieldsText(r, j + 1)
  }

  function RecordText(r: Record): string {
    FieldsText(r, 0) + EOR + "\n"
  }

  function LogText(rs: seq<Record>): string {
    if rs == [] then "" else RecordText(rs[0]) + LogText(rs[1..])
  }

  /** A value that survives the file. */
  ghost predicate Writable(i: nat, value: string) {
    && |value| <= FieldSize(i)
    && ((i == TIME_ON || i == TIME_OFF) && value != "" ==> |value| == 6)
    && !Contains(value, EOR) && !Contains(value, EOR_LOWER) && '\0' !in value
  }

  ghost predicate WritableRecord(r: Record) {
    (forall i: nat | i < TABLE_ROWS :: Writable(i, r[i])) && exists i: nat :: i < TABLE_ROWS && r[i] != ""
  }

  // ---- What the reader makes of what was written ----

  predicate Capitals(s: string) {
    forall c | c in s :: 'A' <= c <= 'Z' || c == '_'
  }

  lemma NameChars0(i: nat)
    requires i < 20
    ensures |Name(i)| >= 3 && Capitals(Name(i))
  {
  }

  lemma NameChars20(i: nat)
    requires 20 <= i < 38
    ensures |Name(i)| >= 3 && Capitals(Name(i))
  {
  }

  lemma NameChars38(i: nat)
    requires 38 <= i < TABLE_ROWS
    ensures |Name(i)| >= 3 && Capitals(Name(i))
  {
  }

  lemma NameChars(i: nat)
    requires i < TABLE_ROWS
    ensures |Name(i)| >= 3 && Capitals(Name(i))
  {
    hide Name, Capitals;
    if i < 20 { NameChars0(i); } else if i < 38 { NameChars20(i); } else { NameChars38(i); }
  }

  /** `s` is the name in any mixture of capital and small letters. */
  predicate Spells(name: string, s: string) {
    |s| == |name| && forall k | 0 <= k < |name| ::
      s[k] == name[k] || ('A' <= name[k] <= 'Z' && s[k] as int == name[k] as int + 32)
  }

  lemma SpelledName(name: string, s: string)
    requires Capitals(name) && Spells(name, s)
    ensures UpperAll(s) == name && ':' !in s && '>' !in s && '<' !in s && '\0' !in s
  {
    forall k | 0 <= k < |s| ensures UpperAll(s)[k] == name[k] && s[k] != ':' && s[k] != '>' && s[k] != '<' && s[k] != '\0' {
      assert name[k] in name;
    }
  }

  /** What may stand behind the length in a tag: a letter for the type, for example. */
  predicate Kind(s: string) {
    forall c | c in s :: !IsDigit(c) && c != '<' && c != '>' && c != '\0'
  }

  lemma {:induction false} KindIgnored(s: string, kind: string, n: nat)
    requires Kind(kind)
    ensures Digits(s + kind, n) == Digits(s, n)
    decreases |s| + |kind|
  {
    if s != "" {
      assert (s + kind)[1..] == s[1..] + kind;
      KindIgnored(s[1..], kind, if IsDigit(s[0]) then n * 10 + (s[0] as int - '0' as int) else n);
    } else if kind != "" {
      assert s + kind == kind && "" + kind[1..] == kind[1..];
      KindIgnored("", kind[1..], n);
    }
  }

  /** A tag behind its `<`, up to the value. */
  function TagHead(name: string, kind: string, size: nat): string {
    name + ":" + Decimal(size) + kind + ">"
  }

  /** A tag behind its `<`, and the value. */
  function TagText(name: string, kind: string, value: string): string {
    TagHead(name, kind, |value|) + value
  }

  /** A field that was written, by whatever program, is read back as that field, and reading goes on right after its value. */
  lemma {:induction false} TagReadBack(i: nat, name: string, kind: string, value: string, more: string)
    requires i < TABLE_ROWS && Spells(Name(i), name) && Kind(kind)
    ensures ReadTag(TagText(name, kind, value) + more) == FieldTag(i, |value|, |name| + |Decimal(|value|)| + |kind| + 2)
  {
    hide Name, Lookup, Digits, Spells;
    var n, d := name, Decimal(|value|) + kind;
    var u := TagText(name, kind, value) + more;
    assert u == n + ":" + d + ">" + value + more;
    NameChars(i);
    SpelledName(Name(i), n);
    forall k | 0 <= k < |n| ensures u[k] == n[k] && u[k] in n {}
    IndexIs(u, ':', |n|);
    forall k | 0 <= k < |n| + 1 + |d| ensures u[k] != '>' {
      if k > |n| { assert u[k] == d[k - |n| - 1] && d[k - |n| - 1] in d; }
    }
    IndexIs(u, '>', |n| + 1 + |d|);
    assert u[..|n|] == n && u[|n| + 1..|n| + 1 + |d|] == d;
    LookupFindsName(i);
    KindIgnored(Decimal(|value|), kind, 0);
    DigitsOfDecimal(|value|);
    NotTheEnd(Name(i), n, u);
  }

  /** The name of a field is not the end tag. */
  lemma {:induction false} NotTheEnd(name: string, n: string, u: string)
    requires Capitals(name) && UpperAll(n) == name && |name| >= 3 && |u| > |n| && u[..|n|] == n && u[|n|] == ':'
    ensures !IsEor(u)
  {
    if |u| >= 4 {
      var c := UpperAll(u[..4])[3];
      assert c == Upper(u[3]);
      if |n| > 3 {
        assert u[3] == n[3] && Upper(n[3]) == name[3] && name[3] in name;
      }
    }
  }

  /** Every spelling of a field's name is looked up as that field. */
  lemma {:induction false} NameInAnyCase(i: nat, u: string, c: nat)
    requires i < TABLE_ROWS && c < |u| && u[c] == ':' && Spells(Name(i), u[..c])
    ensures !IsEor(u) && Lookup(UpperAll(u[..c])) == i
  {
    hide Name, Lookup, Spells, IsEor, UpperAll;
    NameChars(i);
    SpelledName(Name(i), u[..c]);
    LookupFindsName(i);
    NotTheEnd(Name(i), u[..c], u);
  }

  // ---- What is kept of a value ----

  /** A value is kept up to the size of the field; a time of fewer than six digits is followed by zeros. */
  ghost predicate Keeps(i: nat, value: string, v: string) {
    if |value| > FieldSize(i) then
      |v| == FieldSize(i) && v == value[..|v|]
    else if (i == TIME_ON || i == TIME_OFF) && |value| < 6 then
      |v| == 6 && v[..|value|] == value && forall k | |value| <= k < 6 :: v[k] == '0'
    else
      v == value
  }

  lemma StoredKeeps(i: nat, value: string)
    ensures Keeps(i, value, Stored(i, value))
  {
  }

  /** The fields from row `j` on, put into `r`. */
  function Merge(acc: Option<Record>, r: Record, j: nat): Option<Record>
    requires j <= TABLE_ROWS
    decreases TABLE_ROWS - j
  {
    if j == TABLE_ROWS then acc
    else Merge(if r[j] == "" then acc else Some(Put(acc, j, r[j])), r, j + 1)
  }

  lemma {:induction false} MergeIs(acc: Option<Record>, r: Record, j: nat)
    requires j <= TABLE_ROWS
    requires acc.Some? ==> forall i | j <= i < TABLE_ROWS :: acc.value[i] == ""
    ensures var m, a := Merge(acc, r, j), if acc.Some? then acc.value else BLANK;
      && (m.Some? <==> acc.Some? || exists i :: j <= i < TABLE_ROWS && r[i] != "")
      && (m.Some? ==> forall i | 0 <= i < TABLE_ROWS :: m.value[i] == if i < j then a[i] else r[i])
    decreases TABLE_ROWS - j
  {
    if j < TABLE_ROWS {
      MergeIs(if r[j] == "" then acc else Some(Put(acc, j, r[j])), r, j + 1);
    }
  }

  /** One turn of the reading, at a field. */
  lemma {:induction false} FieldTaken(u: string, i: nat, size: nat, at: nat, acc: Option<Record>)
    requires i < TABLE_ROWS && ReadTag(u) == FieldTag(i, size, at) && at + size <= |u|
    ensures ParseBody("<" + u, acc) == ParseBody(u[at + size..], Some(Put(acc, i, Stored(i, u[at..at + size]))))
    ensures Fits("<" + u) == Fits(u[at + size..])
  {
    hide ReadTag, Put, Stored, IndexOf;
    IndexIs("<" + u, '<', 0);
    assert ("<" + u)[1..] == u;
  }

  lemma StoredAsIs(i: nat, value: string)
    requires i < TABLE_ROWS && Writable(i, value) && value != ""
    ensures Stored(i, value) == value
  {
    hide Contains;
  }

  lemma {:induction false} FieldReadBack(i: nat, value: string, more: string, acc: Option<Record>)
    requires i < TABLE_ROWS && Writable(i, value) && value != ""
    ensures ParseBody(FieldText(i, value) + more, acc) == ParseBody(more, Some(Put(acc, i, value)))
    ensures Fits(FieldText(i, value) + more) == Fits(more)
  {
    hide Name, Lookup, ReadTag, Writable, Stored, ParseBody, Fits, Put, Decimal;
    var n, d := Name(i), Decimal(|value|);
    var u, at := TagText(n, "", value) + more, |n| + |d| + 2;
    assert d + "" == d && FieldText(i, value) + more == "<" + u;
    TagReadBack(i, n, "", value, more);
    assert u[at..at + |value|] == value && u[at + |value|..] == more;
    StoredAsIs(i, value);
    FieldTaken(u, i, |value|, at, acc);
  }

  lemma {:induction false} FieldsReadBack(r: Record, j: nat, acc: Option<Record>)
    requires j <= TABLE_ROWS && forall i: nat | i < TABLE_ROWS :: Writable(i, r[i])
    ensures ParseBody(FieldsText(r, j), acc) == Merge(acc, r, j) && Fits(FieldsText(r, j))
    decreases TABLE_ROWS - j
  {
    hide FieldText, Writable, ParseBody, Fits;
    if j == TABLE_ROWS {
      NothingRead(acc);
    } else if r[j] == "" {
      FieldsReadBack(r, j + 1, acc);
      assert FieldsText(r, j) == FieldsText(r, j + 1);
    } else {
      assert Writable(j, r[j]);
      FieldReadBack(j, r[j], FieldsText(r, j + 1), acc);
      FieldsReadBack(r, j + 1, Some(Put(acc, j, r[j])));
    }
  }

  lemma NothingRead(acc: Option<Record>)
    ensures ParseBody("", acc) == acc && Fits("")
  {
  }
}
