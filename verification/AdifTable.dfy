/** The table of ADIF fields and the search for a field name in its packed form. */
module AdifTable {

  /** The rows of the field table. */
  const TABLE_ROWS: nat := 55

  /** The name of a field in the file. */
  function Name(i: nat): string {
    if i < 14 then Name0(i) else if i < 28 then Name14(i) else if i < 42 then Name28(i) else Name42(i)
  }

  function Name0(i: nat): string {
    match i
    case 0 => "FREQ"
    case 1 => "CALL"
    case 2 => "MODE"
    case 3 => "SUBMODE"
    case 4 => "NAME"
    case 5 => "QSO_DATE"
    case 6 => "QSO_DATE_OFF"
    case 7 => "TIME_OFF"
    case 8 => "TIME_ON"
    case 9 => "QTH"
    case 10 => "RST_RCVD"
    case 11 => "RST_SENT"
    case 12 => "STATE"
    case 13 => "VE_PROV"
    case _ => ""
  }

  function Name14(i: nat): string {
    match i
    case 14 => "NOTES"
    case 15 => "QSLRDATE"
    case 16 => "QSLSDATE"
    case 17 => "EQSLRDATE"
    case 18 => "EQSLSDATE"
    case 19 => "LOTWRDATE"
    case 20 => "LOTWSDATE"
    case 21 => "GRIDSQUARE"
    case 22 => "BAND"
    case 23 => "CNTY"
    case 24 => "COUNTRY"
    case 25 => "CQZ"
    case 26 => "DXCC"
    case 27 => "QSL_VIA"
    case _ => ""
  }

  function Name28(i: nat): string {
    match i
    case 28 => "IOTA"
    case 29 => "ITUZ"
    case 30 => "CONT"
    case 31 => "SRX"
    case 32 => "STX"
    case 33 => "SRX_STRING"
    case 34 => "STX_STRING"
    case 35 => "CLASS"
    case 36 => "ARRL_SECT"
    case 37 => "TX_PWR"
    case 38 => "OPERATOR"
    case 39 => "STATION_CALLSIGN"
    case 40 => "MY_GRIDSQUARE"
    case 41 => "MY_CITY"
    case _ => ""
  }

  function Name42(i: nat): string {
    match i
    case 42 => "CWSS_SECTION"
    case 43 => "CWSS_SERNO"
    case 44 => "CWSS_PREC"
    case 45 => "CWSS_CHK"
    case 46 => "AGE"
    case 47 => "TEN_TEN"
    case 48 => "CHECK"
    case 49 => "FD_CLASS"
    case 50 => "FD_SECTION"
    case 51 => "TROOPS"
    case 52 => "TROOPR"
    case 53 => "SCOUTS"
    case 54 => "SCOUTR"
    case _ => ""
  }

  /** The longest value of a field that is kept. */
  function FieldSize(i: nat): nat {
    match i
    case 0 => 12
    case 1 => 30
    case 2 => 20
    case 3 => 20
    case 4 => 80
    case 5 => 8
    case 6 => 8
    case 7 => 6
    case 8 => 6
    case 9 => 100
    case 10 => 3
    case 11 => 3
    case 12 => 20
    case 13 => 20
    case 14 => 512
    case 15 => 8
    case 16 => 8
    case 17 => 8
    case 18 => 8
    case 19 => 8
    case 20 => 8
    case 21 => 8
    case 22 => 8
    case 23 => 60
    case 24 => 60
    case 25 => 8
    case 26 => 8
    case 27 => 256
    case 28 => 20
    case 29 => 20
    case 30 => 60
    case 31 => 50
    case 32 => 50
    case 33 => 100
    case 34 => 100
    case 35 => 20
    case 36 => 20
    case 37 => 8
    case 38 => 30
    case 39 => 30
    case 40 => 8
    case 41 => 60
    case 42 => 20
    case 43 => 20
    case 44 => 20
    case 45 => 20
    case 46 => 2
    case 47 => 10
    case 48 => 10
    case 49 => 20
    case 50 => 20
    case 51 => 20
    case 52 => 20
    case 53 => 20
    case 54 => 20
    case _ => 0
  }

  const TIME_OFF: nat := 7
  const TIME_ON: nat := 8

  /** The width of an entry of the packed table: one more than the longest name. */
  const MAXLEN: nat := 17

  lemma NameShape(i: nat)
    requires i < TABLE_ROWS
    ensures 0 < |Name(i)| < MAXLEN && ' ' !in Name(i)
  {
  }

  function Spaces(n: nat): (s: string)
    ensures |s| == n && forall k | 0 <= k < n :: s[k] == ' '
  {
    seq(n, _ => ' ')
  }

  /** A name, filled up with spaces to the width of an entry. */
  function Entry(i: nat): (s: string)
    requires i < TABLE_ROWS
    ensures |s| == MAXLEN
  {
    NameShape(i);
    Name(i) + Spaces(MAXLEN - |Name(i)|)
  }

  /** The first `n` entries of the packed table. */
  function Packed(n: nat): (s: string)
    requires n <= TABLE_ROWS
    ensures |s| == n * MAXLEN
  {
    if n == 0 then "" else Packed(n - 1) + Entry(n - 1)
  }

  // ---- Searching ----

  predicate OccursAt(s: string, k: nat, key: string) {
    k + |key| <= |s| && s[k..k + |key|] == key
  }

  /** The first occurrence of `key` in `s` at `from` or after it, or -1. */
  function FirstFrom(s: string, from: nat, key: string): (k: int)
    ensures if k < 0 then k == -1 && forall i: nat | i >= from :: !OccursAt(s, i, key)
            else k >= from && OccursAt(s, k, key) && forall i: nat | from <= i < k :: !OccursAt(s, i, key)
    decreases |s| - from
  {
    if from + |key| > |s| then -1 else if OccursAt(s, from, key) then from else FirstFrom(s, from + 1, key)
  }

  /** The row in whose entry of the packed table `key` first occurs, or -1. */
  function Lookup(key: string): (i: int)
    ensures -1 <= i < TABLE_ROWS
  {
    var k := FirstFrom(Packed(TABLE_ROWS), 0, key);
    if k < 0 then -1 else if k >= TABLE_ROWS * MAXLEN then TABLE_ROWS - 1 else k / MAXLEN
  }

  // ---- No name occurs inside an earlier one ----

  // Which names have a letter, for the letters that tell names apart.

  lemma WithX0(i: nat)
    requires i < 28
    ensures 'X' in Name(i) ==> i in {26}
  {
  }

  lemma WithX28(i: nat)
    requires 28 <= i < TABLE_ROWS
    ensures 'X' in Name(i) ==> i in {31, 32, 33, 34, 37}
  {
  }

  lemma WithX(i: nat)
    requires i < TABLE_ROWS
    ensures 'X' in Name(i) ==> i in {26, 31, 32, 33, 34, 37}
  {
    hide Name;
    if i < 28 { WithX0(i); } else { WithX28(i); }
  }

  lemma WithH0(i: nat)
    requires i < 28
    ensures 'H' in Name(i) ==> i in {9}
  {
  }

  lemma WithH28(i: nat)
    requires 28 <= i < TABLE_ROWS
    ensures 'H' in Name(i) ==> i in {45, 48}
  {
  }

  lemma WithH(i: nat)
    requires i < TABLE_ROWS
    ensures 'H' in Name(i) ==> i in {9, 45, 48}
  {
    hide Name;
    if i < 28 { WithH0(i); } else { WithH28(i); }
  }

  lemma WithU0(i: nat)
    requires i < 28
    ensures 'U' in Name(i) ==> i in {3, 21, 24}
  {
  }

  lemma WithU28(i: nat)
    requires 28 <= i < TABLE_ROWS
    ensures 'U' in Name(i) ==> i in {29, 40, 53, 54}
  {
  }

  lemma WithU(i: nat)
    requires i < TABLE_ROWS
    ensures 'U' in Name(i) ==> i in {3, 21, 24, 29, 40, 53, 54}
  {
    hide Name;
    if i < 28 { WithU0(i); } else { WithU28(i); }
  }

  lemma WithZ0(i: nat)
    requires i < 28
    ensures 'Z' in Name(i) ==> i in {25}
  {
  }

  lemma WithZ28(i: nat)
    requires 28 <= i < TABLE_ROWS
    ensures 'Z' in Name(i) ==> i in {29}
  {
  }

  lemma WithZ(i: nat)
    requires i < TABLE_ROWS
    ensures 'Z' in Name(i) ==> i in {25, 29}
  {
    hide Name;
    if i < 28 { WithZ0(i); } else { WithZ28(i); }
  }

  lemma WithP0(i: nat)
    requires i < 28
    ensures 'P' in Name(i) ==> i in {13}
  {
  }

  lemma WithP28(i: nat)
    requires 28 <= i < TABLE_ROWS
    ensures 'P' in Name(i) ==> i in {37, 38, 44, 51, 52}
  {
  }

  lemma WithP(i: nat)
    requires i < TABLE_ROWS
    ensures 'P' in Name(i) ==> i in {13, 37, 38, 44, 51, 52}
  {
    hide Name;
    if i < 28 { WithP0(i); } else { WithP28(i); }
  }

  lemma WithG0(i: nat)
    requires i < 28
    ensures 'G' in Name(i) ==> i in {21}
  {
  }

  lemma WithG28(i: nat)
    requires 28 <= i < TABLE_ROWS
    ensures 'G' in Name(i) ==> i in {33, 34, 39, 40, 46}
  {
  }

  lemma WithG(i: nat)
    requires i < TABLE_ROWS
    ensures 'G' in Name(i) ==> i in {21, 33, 34, 39, 40, 46}
  {
    hide Name;
    if i < 28 { WithG0(i); } else { WithG28(i); }
  }

  lemma WithL(i: nat)
    requires i < TABLE_ROWS
    ensures 'L' in Name(i) ==> i in {1, 15, 16, 17, 18, 19, 20, 27, 35, 36, 39, 49}
  {
  }

  lemma WithM(i: nat)
    requires i < TABLE_ROWS
    ensures 'M' in Name(i) ==> i in {2, 3, 4, 7, 8, 40, 41}
  {
  }

  lemma WithC(i: nat)
    requires i < TABLE_ROWS
    ensures 'C' in Name(i) ==> i in {1, 10, 23, 24, 25, 26, 30, 35, 36, 39, 41, 42, 43, 44, 45, 48, 49, 50, 53, 54}
  {
  }

  lemma WithA(i: nat)
    requires i < TABLE_ROWS
    ensures 'A' in Name(i) ==> i in {1, 4, 5, 6, 12, 15, 16, 17, 18, 19, 20, 21, 22, 27, 28, 35, 36, 38, 39, 40, 46, 49}
  {
  }

  lemma WithN(i: nat)
    requires i < TABLE_ROWS
    ensures 'N' in Name(i) ==> i in {4, 8, 11, 14, 22, 23, 24, 30, 33, 34, 39, 42, 43, 47, 50}
  {
  }

  lemma WithI(i: nat)
    requires i < TABLE_ROWS
    ensures 'I' in Name(i) ==> i in {7, 8, 21, 27, 28, 29, 33, 34, 39, 40, 41, 42, 50}
  {
  }

  lemma WithO(i: nat)
    requires i < TABLE_ROWS
    ensures 'O' in Name(i) ==> i in {2, 3, 5, 6, 7, 8, 13, 14, 19, 20, 24, 28, 30, 38, 39, 42, 43, 50, 51, 52, 53, 54}
  {
  }

  lemma WithE(i: nat)
    requires i < TABLE_ROWS
    ensures 'E' in Name(i) ==> i in {0, 2, 3, 4, 5, 6, 7, 8, 11, 12, 13, 14, 15, 16, 17, 18, 19, 20, 21, 36, 38, 40, 42, 43, 44, 46, 47, 48, 50}
  {
  }

  lemma WithS(i: nat)
    requires i < TABLE_ROWS
    ensures 'S' in Name(i) ==> i in {3, 5, 6, 10, 11, 12, 14, 15, 16, 17, 18, 20, 21, 27, 31, 32, 33, 34, 35, 36, 39, 40, 42, 43, 44, 45, 49, 50, 51, 53, 54}
  {
  }

  lemma WithD(i: nat)
    requires i < TABLE_ROWS
    ensures 'D' in Name(i) ==> i in {2, 3, 5, 6, 10, 15, 16, 17, 18, 19, 20, 21, 22, 26, 40, 49, 50}
  {
  }

  lemma WithT(i: nat)
    requires i < TABLE_ROWS
    ensures 'T' in Name(i) ==> i in {5, 6, 7, 8, 9, 10, 11, 12, 14, 15, 16, 17, 18, 19, 20, 23, 24, 28, 29, 30, 32, 33, 34, 36, 37, 38, 39, 41, 42, 47, 50, 51, 52, 53, 54}
  {
  }

  lemma WithR(i: nat)
    requires i < TABLE_ROWS
    ensures 'R' in Name(i) ==> i in {0, 10, 11, 13, 15, 17, 19, 21, 24, 31, 33, 34, 36, 37, 38, 40, 43, 44, 51, 52, 54}
  {
  }

  function NameLength(i: nat): nat {
    if i in {9, 25, 31, 32, 46} then 3
    else if i in {12, 14, 35, 48} then 5
    else if i in {37, 51, 52, 53, 54} then 6
    else if i in {3, 8, 13, 24, 27, 41, 47} then 7
    else if i in {5, 7, 10, 11, 15, 16, 38, 45, 49} then 8
    else if i in {17, 18, 19, 20, 36, 44} then 9
    else if i in {21, 33, 34, 43, 50} then 10
    else if i in {6, 42} then 12
    else if i in {40} then 13
    else if i in {39} then 16
    else 4
  }

  lemma LengthIs(i: nat)
    requires i < TABLE_ROWS
    ensures |Name(i)| == NameLength(i)
  {
  }

  /** Some letter of name `i` is not in name `j`. */
  ghost predicate LacksLetter(i: nat, j: nat) {
    exists c :: c in Name(i) && c !in Name(j)
  }

  /** Name `j` has all the letters of name `i`, and is at least as long. */
  predicate SameLetters(i: nat, j: nat) {
    || (i == 12 && (j == 5 || j == 6)) || (i == 16 && j == 15) || (i == 18 && j == 17) || (i == 30 && j == 24)
    || (i == 34 && j == 33) || (i == 46 && (j == 21 || j == 40)) || (i == 47 && (j == 8 || j == 11 || j == 42))
    || (i == 52 && (j == 38 || j == 51))
  }

  lemma EarlierThan20(i: nat, j: nat)
    requires j < i && 0 <= i < 20 && |Name(i)| <= |Name(j)| && !SameLetters(i, j)
    ensures LacksLetter(i, j)
  {
    LengthIs(i);
    LengthIs(j);
    match i {
      case 1 => WithC(j); assert 'C' in Name(1);
      case 2 => WithO(j); assert 'O' in Name(2);
      case 4 => WithN(j); assert 'N' in Name(4);
      case 7 => WithI(j); assert 'I' in Name(7);
      case 8 => WithN(j); assert 'N' in Name(8);
      case 9 => WithH(j); assert 'H' in Name(9);
      case 10 => WithC(j); assert 'C' in Name(10);
      case 11 => WithN(j); assert 'N' in Name(11);
      case 12 => WithA(j); assert 'A' in Name(12);
      case 13 => WithP(j); assert 'P' in Name(13);
      case 14 => WithN(j); WithO(j); WithS(j); assert 'N' in Name(14) && 'O' in Name(14) && 'S' in Name(14);
      case 15 => WithL(j); assert 'L' in Name(15);
      case 16 => WithL(j); assert 'L' in Name(16);
      case 17 => WithL(j); assert 'L' in Name(17);
      case 18 => WithL(j); assert 'L' in Name(18);
      case 19 => WithO(j); WithL(j); assert 'O' in Name(19) && 'L' in Name(19);
      case _ =>
    }
  }

  lemma EarlierThan30(i: nat, j: nat)
    requires j < i && 20 <= i < 30 && |Name(i)| <= |Name(j)| && !SameLetters(i, j)
    ensures LacksLetter(i, j)
  {
    LengthIs(i);
    LengthIs(j);
    match i {
      case 20 => WithO(j); WithL(j); WithS(j); assert 'O' in Name(20) && 'L' in Name(20) && 'S' in Name(20);
      case 21 => WithI(j); assert 'I' in Name(21);
      case 22 => WithN(j); WithD(j); assert 'N' in Name(22) && 'D' in Name(22);
      case 23 => WithC(j); WithN(j); assert 'C' in Name(23) && 'N' in Name(23);
      case 24 => WithC(j); WithN(j); assert 'C' in Name(24) && 'N' in Name(24);
      case 25 => WithZ(j); assert 'Z' in Name(25);
      case 26 => WithX(j); assert 'X' in Name(26);
      case 27 => WithI(j); WithL(j); assert 'I' in Name(27) && 'L' in Name(27);
      case 28 => WithI(j); WithA(j); WithO(j); assert 'I' in Name(28) && 'A' in Name(28) && 'O' in Name(28);
      case 29 => WithZ(j); assert 'Z' in Name(29);
      case _ =>
    }
  }

  lemma EarlierThan40(i: nat, j: nat)
    requires j < i && 30 <= i < 40 && |Name(i)| <= |Name(j)| && !SameLetters(i, j)
    ensures LacksLetter(i, j)
  {
    LengthIs(i);
    LengthIs(j);
    match i {
      case 30 => WithC(j); WithO(j); assert 'C' in Name(30) && 'O' in Name(30);
      case 31 => WithX(j); WithS(j); assert 'X' in Name(31) && 'S' in Name(31);
      case 32 => WithX(j); WithT(j); assert 'X' in Name(32) && 'T' in Name(32);
      case 33 => WithX(j); assert 'X' in Name(33);
      case 34 => WithX(j); assert 'X' in Name(34);
      case 35 => WithC(j); WithA(j); assert 'C' in Name(35) && 'A' in Name(35);
      case 36 => WithC(j); assert 'C' in Name(36);
      case 37 => WithP(j); WithX(j); assert 'P' in Name(37) && 'X' in Name(37);
      case 38 => WithP(j); assert 'P' in Name(38);
      case _ =>
    }
  }

  lemma EarlierThan48(i: nat, j: nat)
    requires j < i && 40 <= i < 48 && |Name(i)| <= |Name(j)| && !SameLetters(i, j)
    ensures LacksLetter(i, j)
  {
    LengthIs(i);
    LengthIs(j);
    match i {
      case 40 => WithU(j); assert 'U' in Name(40);
      case 41 => WithC(j); WithM(j); assert 'C' in Name(41) && 'M' in Name(41);
      case 42 => WithC(j); WithE(j); assert 'C' in Name(42) && 'E' in Name(42);
      case 43 => WithC(j); WithR(j); assert 'C' in Name(43) && 'R' in Name(43);
      case 44 => WithP(j); assert 'P' in Name(44);
      case 45 => WithH(j); assert 'H' in Name(45);
      case 46 => WithG(j); WithE(j); assert 'G' in Name(46) && 'E' in Name(46);
      case 47 => WithN(j); WithE(j); WithT(j); assert 'N' in Name(47) && 'E' in Name(47) && 'T' in Name(47);
      case _ =>
    }
  }

  lemma EarlierThan55(i: nat, j: nat)
    requires j < i && 48 <= i < 55 && |Name(i)| <= |Name(j)| && !SameLetters(i, j)
    ensures LacksLetter(i, j)
  {
    LengthIs(i);
    LengthIs(j);
    match i {
      case 48 => WithH(j); WithE(j); assert 'H' in Name(48) && 'E' in Name(48);
      case 49 => WithC(j); WithD(j); WithA(j); assert 'C' in Name(49) && 'D' in Name(49) && 'A' in Name(49);
      case 50 => WithC(j); WithD(j); assert 'C' in Name(50) && 'D' in Name(50);
      case 51 => WithP(j); WithS(j); WithO(j); assert 'P' in Name(51) && 'S' in Name(51) && 'O' in Name(51);
      case 52 => WithP(j); WithO(j); WithT(j); assert 'P' in Name(52) && 'O' in Name(52) && 'T' in Name(52);
      case 53 => WithU(j); WithC(j); WithS(j); assert 'U' in Name(53) && 'C' in Name(53) && 'S' in Name(53);
      case 54 => WithU(j); WithC(j); WithS(j); WithR(j); assert 'U' in Name(54) && 'C' in Name(54) && 'S' in Name(54) && 'R' in Name(54);
      case _ =>
    }
  }

  /** Every earlier name is shorter, lacks a letter, or is one of a few exceptions. */
  lemma EarlierNames(i: nat, j: nat)
    requires j < i < TABLE_ROWS && |Name(i)| <= |Name(j)| && !SameLetters(i, j)
    ensures LacksLetter(i, j)
  {
    hide Name;
    if i < 20 { EarlierThan20(i, j); }
    else if i < 30 { EarlierThan30(i, j); }
    else if i < 40 { EarlierThan40(i, j); }
    else if i < 48 { EarlierThan48(i, j); }
    else { EarlierThan55(i, j); }
  }

  // ---- A name is found in its own entry ----

  lemma InsideMeansLetters(s: string, k: nat, key: string, c: char)
    requires OccursAt(s, k, key) && c in key
    ensures c in s
  {
    var d :| 0 <= d < |key| && key[d] == c;
    assert s[k..k + |key|][d] == s[k + d];
  }

  lemma LettersAt(s: string, k: nat, key: string)
    requires OccursAt(s, k, key)
    ensures forall d | 0 <= d < |key| :: s[k + d] == key[d]
  {
    forall d | 0 <= d < |key| ensures s[k + d] == key[d] { assert s[k..k + |key|][d] == s[k + d]; }
  }

  /** The exceptions differ in their letters' order. */
  lemma Mismatch(i: nat, j: nat, k: nat) returns (d: nat)
    requires SameLetters(i, j) && k + |Name(i)| <= |Name(j)|
    ensures d < |Name(i)| && Name(j)[k + d] != Name(i)[d]
  {
    if i == 46 { d := AgeMismatch(j, k); }
    else if i == 47 { d := TenTenMismatch(j, k); }
    else if i == 12 { d := StateMismatch(j, k); }
    else { d := OtherMismatch(i, j, k); }
  }

  lemma AgeMismatch(j: nat, k: nat) returns (d: nat)
    requires (j == 21 || j == 40) && k + 3 <= |Name(j)|
    ensures d < 3 && Name(j)[k + d] != Name(46)[d]
  {
    d := if Name(j)[k] != 'A' then 0 else 1;
    if k < 5 { if k == 0 {} else if k == 1 {} else if k == 2 {} else if k == 3 {} }
    else if k == 5 {} else if k == 6 {} else if k == 7 {} else if k == 8 {} else if k == 9 {}
  }

  lemma TenTenMismatch(j: nat, k: nat) returns (d: nat)
    requires (j == 8 || j == 11 || j == 42) && k + 7 <= |Name(j)|
    ensures d < 7 && Name(j)[k + d] != Name(47)[d]
  {
    d := if Name(j)[k] != 'T' then 0 else 1;
    if k == 0 {} else if k == 1 {} else if k == 2 {} else if k == 3 {} else if k == 4 {}
  }

  lemma StateMismatch(j: nat, k: nat) returns (d: nat)
    requires (j == 5 || j == 6) && k + 5 <= |Name(j)|
    ensures d < 5 && Name(j)[k + d] != Name(12)[d]
  {
    d := if Name(j)[k] != 'S' then 0 else 1;
    if k < 4 { if k == 0 {} else if k == 1 {} else if k == 2 {} }
    else if k == 4 {} else if k == 5 {} else if k == 6 {}
  }

  lemma OtherMismatch(i: nat, j: nat, k: nat) returns (d: nat)
    requires SameLetters(i, j) && i in {16, 18, 30, 34, 52} && k + |Name(i)| <= |Name(j)|
    ensures d < |Name(i)| && Name(j)[k + d] != Name(i)[d]
  {
    if i == 16 { d := 3; }
    else if i == 18 { d := 4; }
    else if i == 34 { d := 1; }
    else if i == 30 { d := if k == 0 then 2 else 0; if k == 1 {} else if k == 2 {} }
    else if j == 51 { d := 5; }
    else { d := 0; if k == 0 {} else if k == 1 {} }
  }

  /** No name occurs inside an earlier one. */
  lemma NotInsideEarlier(i: nat, j: nat, k: nat)
    requires j < i < TABLE_ROWS
    ensures !OccursAt(Name(j), k, Name(i))
  {
    hide Name;
    if OccursAt(Name(j), k, Name(i)) {
      if SameLetters(i, j) {
        var d := Mismatch(i, j, k);
        LettersAt(Name(j), k, Name(i));
      } else {
        EarlierNames(i, j);
        var c :| c in Name(i) && c !in Name(j);
        InsideMeansLetters(Name(j), k, Name(i), c);
      }
    }
  }

  // ---- The packed table ----

  lemma {:induction false} PackedAt(n: nat, j: nat, o: nat)
    requires j < n <= TABLE_ROWS && o < MAXLEN
    ensures Packed(n)[j * MAXLEN + o] == Entry(j)[o]
    decreases n
  {
    hide Entry;
    if j < n - 1 {
      PackedAt(n - 1, j, o);
      assert j * MAXLEN + o < (n - 1) * MAXLEN;
    }
  }

  lemma DivMod(k: nat) returns (j: nat, o: nat)
    ensures k == j * MAXLEN + o && o < MAXLEN
  {
    j, o := k / MAXLEN, k % MAXLEN;
  }

  /** An occurrence of a name in the packed table lies inside one entry's name. */
  lemma {:induction false} OccursInOneName(i: nat, k: nat) returns (j: nat, o: nat)
    requires i < TABLE_ROWS && OccursAt(Packed(TABLE_ROWS), k, Name(i))
    ensures j < TABLE_ROWS && k == j * MAXLEN + o && OccursAt(Name(j), o, Name(i))
  {
    hide Name, Packed;
    var t, key := Packed(TABLE_ROWS), Name(i);
    NameShape(i);
    j, o := DivMod(k);
    assert j < TABLE_ROWS;
    NameShape(j);
    var e, n := Entry(j), |Name(j)|;
    if o + |key| > n {
      var d := if o < n then n - o else 0;
      PackedAt(TABLE_ROWS, j, o + d);
      LettersAt(t, k, key);
    } else {
      forall d | 0 <= d < |key| ensures Name(j)[o + d] == key[d] {
        PackedAt(TABLE_ROWS, j, o + d);
        LettersAt(t, k, key);
        assert t[k + d] == key[d];
      }
      assert Name(j)[o..o + |key|] == key;
    }
  }

  /** The search finds every name of the table in its own row. */
  lemma {:induction false} LookupFindsName(i: nat)
    requires i < TABLE_ROWS
    ensures Lookup(Name(i)) == i
  {
    hide Name, Packed, FirstFrom;
    var t, key := Packed(TABLE_ROWS), Name(i);
    NameShape(i);
    assert OccursAt(t, i * MAXLEN, key) by {
      forall d | 0 <= d < |key| ensures t[i * MAXLEN + d] == key[d] { PackedAt(TABLE_ROWS, i, d); }
      assert t[i * MAXLEN..i * MAXLEN + |key|] == key;
    }
    var k := FirstFrom(t, 0, key);
    assert 0 <= k <= i * MAXLEN;
    var j, o := OccursInOneName(i, k);
    assert j <= i;
    if j < i { NotInsideEarlier(i, j, o); }
  }

}
