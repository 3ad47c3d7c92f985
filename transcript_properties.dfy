/** What the transcript layout promises: the fixed table geometry, the row
    numbering and fill alternation of a table body, the two row shapes chosen
    by the title's byte length, the semester titles, the student-info block,
    the number of blocks in a whole transcript, and how the printed quality
    point is derived from the printed credit unit. */
module TranscriptProperties {
  import opened PhpText
  import opened Canvas
  import opened Transcript

  /** The six column widths add up to 181, the width of the semester title cell. */
  lemma ColumnWidthsTotal()
    ensures TableWidth() == 181
  {
    var w := CourseColumnWidths;
    assert Sum(w[..0]) == 0;
    assert w[..1][..0] == w[..0];
    assert Sum(w[..1]) == 14;
    assert w[..2][..1] == w[..1];
    assert Sum(w[..2]) == 95;
    assert w[..3][..2] == w[..2];
    assert Sum(w[..3]) == 117;
    assert w[..4][..3] == w[..3];
    assert Sum(w[..4]) == 136;
    assert w[..5][..4] == w[..4];
    assert Sum(w[..5]) == 161;
    assert w[..5] == w[..|w| - 1];
  }

  /** The fill flag, flipped once per row from off, is on exactly for odd row indices. */
  lemma {:induction false} OddIsParity(n: nat)
    ensures Odd(n) <==> n % 2 == 1
  {
    if n > 0 {
      OddIsParity(n - 1);
    }
  }

  /** A course row: six cells then a line break. Every cell has its column's
      width and alignment, the row's fill, and stays on the line; the sequence
      cell has no right border, the others a full frame; all six are single-line
      cells of height 6 when the title fits in 45 bytes, and multi-line cells
      of height 12 otherwise. The texts are the sequence number, title, code,
      printed unit, score and grade, and printed quality point. */
  lemma RowCellsShape(c: Course, seqNo: nat, fill: bool, unit: string, point: string)
    ensures var r := RowCells(c, seqNo, fill, unit, point);
            && |r| == 7
            && r[6] == LnOp(LastCellHeight)
            && (forall j :: 0 <= j < 6 ==>
                  && IsTextCell(r[j])
                  && (r[j].CellOp? <==> FitsOneLine(c))
                  && r[j].w == CourseColumnWidths[j]
                  && r[j].h == (if FitsOneLine(c) then 6 else 12)
                  && r[j].align == CourseColumnAligns[j]
                  && r[j].border == (if j == 0 then Sides("LTB") else Sides("LRTB"))
                  && r[j].fill == fill
                  && r[j].ln == 0)
            && r[0].txt == NatToString(seqNo)
            && r[1].txt == c.title
            && r[2].txt == c.code
            && r[3].txt == unit
            && r[4].txt == c.score + " " + c.grade
            && r[5].txt == point
  {
  }

  /** RowCellsShape for the row as drawn, with the printed unit and quality point. */
  lemma RowShape(c: Course, seqNo: nat, fill: bool)
    ensures var r := RowCommands(c, seqNo, fill);
            && |r| == 7
            && r[6] == LnOp(LastCellHeight)
            && (forall j :: 0 <= j < 6 ==>
                  && IsTextCell(r[j])
                  && (r[j].CellOp? <==> FitsOneLine(c))
                  && r[j].w == CourseColumnWidths[j]
                  && r[j].h == (if FitsOneLine(c) then 6 else 12)
                  && r[j].align == CourseColumnAligns[j]
                  && r[j].border == (if j == 0 then Sides("LTB") else Sides("LRTB"))
                  && r[j].fill == fill
                  && r[j].ln == 0)
            && r[0].txt == NatToString(seqNo)
            && r[1].txt == c.title
            && r[2].txt == c.code
            && r[3].txt == UnitText(c)
            && r[4].txt == c.score + " " + c.grade
            && r[5].txt == QualityPointText(c)
  {
    RowCellsShape(c, seqNo, fill, UnitText(c), QualityPointText(c));
  }

  /** The cells of a row together span the table width. */
  lemma RowSpansTable(c: Course, seqNo: nat, fill: bool)
    ensures var r := RowCommands(c, seqNo, fill);
            IsTextCell(r[0]) && IsTextCell(r[1]) && IsTextCell(r[2])
            && IsTextCell(r[3]) && IsTextCell(r[4]) && IsTextCell(r[5])
            && r[0].w + r[1].w + r[2].w + r[3].w + r[4].w + r[5].w == TableWidth() == 181
  {
    RowShape(c, seqNo, fill);
    ColumnWidthsTotal();
  }

  /** Rows of seven commands each, drawn for xs, take seven commands per item. */
  lemma {:induction false} NumberedLength<T>(xs: seq<T>, seqNo: nat, fill: bool, row: (T, nat, bool) -> seq<Command>)
    requires forall x, n, b :: |row(x, n, b)| == 7
    ensures |Numbered(xs, seqNo, fill, row)| == 7 * |xs|
  {
    if xs != [] {
      NumberedLength(xs[1..], seqNo + 1, !fill, row);
    }
  }

  /** Block k of rows drawn from counter seqNo and flag fill is the row of the
      k-th item, numbered seqNo + k, its flag flipped k times. */
  lemma {:induction false} NumberedAt<T>(xs: seq<T>, seqNo: nat, fill: bool, row: (T, nat, bool) -> seq<Command>, k: nat)
    requires forall x, n, b :: |row(x, n, b)| == 7
    requires k < |xs|
    ensures |Numbered(xs, seqNo, fill, row)| == 7 * |xs|
    ensures Numbered(xs, seqNo, fill, row)[7 * k .. 7 * k + 7] == row(xs[k], seqNo + k, fill != Odd(k))
  {
    NumberedLength(xs, seqNo, fill, row);
    var first := row(xs[0], seqNo, fill);
    var rest := Numbered(xs[1..], seqNo + 1, !fill, row);
    if k == 0 {
      assert (first + rest)[0..7] == first;
    } else {
      NumberedAt(xs[1..], seqNo + 1, !fill, row, k - 1);
      assert (first + rest)[7 * k .. 7 * k + 7] == rest[7 * (k - 1) .. 7 * (k - 1) + 7];
    }
  }

  lemma RowLength(c: Course, seqNo: nat, fill: bool)
    ensures |RowCommands(c, seqNo, fill)| == 7
  {
  }

  /** Row k of the rows drawn from counter seqNo and flag fill is the row of
      the k-th course, numbered seqNo + k, its flag flipped k times. */
  lemma RowsFromAt(cs: seq<Course>, seqNo: nat, fill: bool, k: nat)
    requires k < |cs|
    ensures |RowsFrom(cs, seqNo, fill)| == 7 * |cs|
    ensures RowsFrom(cs, seqNo, fill)[7 * k .. 7 * k + 7] == RowCommands(cs[k], seqNo + k, fill != Odd(k))
  {
    forall c, n, b ensures |RowCommands(c, n, b)| == 7 {
      RowLength(c, n, b);
    }
    NumberedAt(cs, seqNo, fill, RowCommands, k);
  }

  /** A table body: one seven-command row per course, in order; row k is
      numbered k + 1 and filled exactly when k is odd; the body ends with a
      line break of 10. */
  lemma TableBodyRows(cs: seq<Course>, k: nat)
    requires k < |cs|
    ensures var b := TableBodyCommands(cs);
            && |b| == 7 * |cs| + 1
            && b[|b| - 1] == LnOp(Height(TableGap))
            && b[7 * k .. 7 * k + 7] == RowCommands(cs[k], k + 1, k % 2 == 1)
  {
    var rows, r := RowsFrom(cs, 1, false), RowCommands(cs[k], k + 1, k % 2 == 1);
    assert |rows| == 7 * |cs| && rows[7 * k .. 7 * k + 7] == r by {
      RowsFromAt(cs, 1, false, k);
      OddIsParity(k);
      assert (false != Odd(k)) == (k % 2 == 1);
    }
    ClosedBlock(rows, LnOp(Height(TableGap)), |cs|, k, r);
  }

  /** Seven-command blocks followed by one closing command keep their blocks in place. */
  lemma ClosedBlock(rows: seq<Command>, last: Command, n: nat, k: nat, row: seq<Command>)
    requires k < n && |rows| == 7 * n && rows[7 * k .. 7 * k + 7] == row
    ensures var b := rows + [last];
            |b| == 7 * n + 1 && b[|b| - 1] == last && b[7 * k .. 7 * k + 7] == row
  {
    SliceOfPrefix(rows, [last], 7 * k, 7 * k + 7);
  }

  /** The sequence number printed in row k reads k + 1, and every cell of the
      row carries the fill flag k % 2 == 1: rows are numbered 1..N and striped. */
  lemma TableBodyNumbering(cs: seq<Course>, k: nat)
    requires k < |cs|
    ensures var b := TableBodyCommands(cs);
            && 7 * k + 6 < |b|
            && IsTextCell(b[7 * k])
            && b[7 * k].txt == NatToString(k + 1)
            && DigitsValue(b[7 * k].txt) == k + 1
            && (forall j :: 7 * k <= j < 7 * k + 6 ==> IsTextCell(b[j]) && b[j].fill == (k % 2 == 1))
            && b[7 * k + 6] == LnOp(LastCellHeight)
  {
    var b, r := TableBodyCommands(cs), RowCommands(cs[k], k + 1, k % 2 == 1);
    assert 7 * k + 7 <= |b| && b[7 * k .. 7 * k + 7] == r by {
      TableBodyRows(cs, k);
    }
    assert && |r| == 7
           && (forall j :: 0 <= j < 6 ==> IsTextCell(r[j]) && r[j].fill == (k % 2 == 1))
           && r[0].txt == NatToString(k + 1)
           && r[6] == LnOp(LastCellHeight) by {
      RowShape(cs[k], k + 1, k % 2 == 1);
    }
    BlockCells(b, 7 * k, r, k % 2 == 1, NatToString(k + 1));
    NatToStringValue(k + 1);
  }

  /** The cells of a seven-command row found at index i of a log. */
  lemma BlockCells(b: seq<Command>, i: nat, row: seq<Command>, fill: bool, first: string)
    requires |row| == 7 && i + 7 <= |b| && b[i .. i + 7] == row
    requires forall j :: 0 <= j < 6 ==> IsTextCell(row[j]) && row[j].fill == fill
    requires IsTextCell(row[0]) && row[0].txt == first && row[6] == LnOp(LastCellHeight)
    ensures && i + 6 < |b|
            && IsTextCell(b[i])
            && b[i].txt == first
            && (forall j :: i <= j < i + 6 ==> IsTextCell(b[j]) && b[j].fill == fill)
            && b[i + 6] == LnOp(LastCellHeight)
  {
    SliceIndices(b, i, i + 7, row);
  }

  /** Which row shape a title gets: a title longer than 45 characters never
      fits, one of at most 11 characters always does (a character is at most
      four bytes), and for an ASCII title the byte count is the character count. */
  lemma TitleRowKind(c: Course)
    ensures |c.title| > MaxLenCharsPerLine ==> !FitsOneLine(c)
    ensures |c.title| <= 11 ==> FitsOneLine(c)
    ensures IsAscii(c.title) ==> (FitsOneLine(c) <==> |c.title| <= MaxLenCharsPerLine)
  {
    StrLenBounds(c.title);
  }

  /** The first n column labels, one MultiCell per column in column order. */
  lemma {:induction false} HeaderLabelCellsAt(n: nat)
    requires n <= 6
    ensures |HeaderLabelCells(n)| == n
    ensures forall j :: 0 <= j < n ==> HeaderLabelCells(n)[j] == HeaderLabelCell(j)
  {
    if n > 0 {
      HeaderLabelCellsAt(n - 1);
    }
  }

  /** A table header: the semester title across the whole table width, on a
      line of its own; then the six column labels as filled, framed, centred
      MultiCells of height 10 in column order; then a line break. */
  lemma TableHeaderShape(session: string, key: SemesterKey, level: string)
    ensures var h := TableHeaderCommands(session, key, level);
            && |h| == 8
            && h[0] == CellOp(181, 0, SemesterTitle(session, key, level), NoBorder, Center, false, 1)
            && (forall j :: 0 <= j < 6 ==>
                  h[j + 1] == MultiCellOp(CourseColumnWidths[j], 10, HeaderLabels[j], Frame, Center, true, 0))
            && h[7] == LnOp(LastCellHeight)
  {
    ColumnWidthsTotal();
    HeaderLabelCellsAt(6);
  }

  /** Each column label is exactly as wide as the body cells of its column,
      and the title cell as wide as a whole body row. */
  lemma HeaderAlignsWithBody(session: string, key: SemesterKey, level: string, c: Course, seqNo: nat, fill: bool)
    ensures var h, r := TableHeaderCommands(session, key, level), RowCommands(c, seqNo, fill);
            && |h| == 8 && |r| == 7
            && (forall j :: 0 <= j < 6 ==> IsTextCell(h[j + 1]) && IsTextCell(r[j]) && h[j + 1].w == r[j].w)
            && h[0].CellOp?
            && h[0].w == r[0].w + r[1].w + r[2].w + r[3].w + r[4].w + r[5].w
  {
    TableHeaderShape(session, key, level);
    RowShape(c, seqNo, fill);
    ColumnsAlign(TableHeaderCommands(session, key, level), RowCommands(c, seqNo, fill));
  }

  /** Header label cells and row cells laid out on the column widths line up,
      under a title as wide as the table. */
  lemma ColumnsAlign(h: seq<Command>, r: seq<Command>)
    requires |h| == 8 && |r| == 7
    requires h[0].CellOp? && h[0].w == 181
    requires forall j :: 0 <= j < 6 ==> h[j + 1] == MultiCellOp(CourseColumnWidths[j], 10, HeaderLabels[j], Frame, Center, true, 0)
    requires forall j :: 0 <= j < 6 ==> IsTextCell(r[j]) && r[j].w == CourseColumnWidths[j]
    ensures IsTextCell(r[0]) && IsTextCell(r[1]) && IsTextCell(r[2]) && IsTextCell(r[3]) && IsTextCell(r[4]) && IsTextCell(r[5])
    ensures && (forall j :: 0 <= j < 6 ==> IsTextCell(h[j + 1]) && IsTextCell(r[j]) && h[j + 1].w == r[j].w)
            && h[0].w == r[0].w + r[1].w + r[2].w + r[3].w + r[4].w + r[5].w
  {
    assert r[0].w + r[1].w + r[2].w + r[3].w + r[4].w + r[5].w == 14 + 81 + 22 + 19 + 25 + 20;
  }

  /** The title reads "SECOND SEMESTER" exactly when the semester key is not
      loosely equal to 1, and starts with "FIRST SEMESTER - " exactly when it is. */
  lemma SemesterTitleCases(session: string, key: SemesterKey, level: string)
    ensures var t := SemesterTitle(session, key, level);
            && (t == "SECOND SEMESTER" <==> !IsFirstSemester(key))
            && (IsFirstSemester(key) <==> |t| >= 17 && t[..17] == "FIRST SEMESTER - ")
  {
    var t := SemesterTitle(session, key, level);
    if IsFirstSemester(key) {
      var prefix := "FIRST SEMESTER - ";
      assert t == prefix + (level + " (" + session + ")");
      assert t[..17] == prefix;
      assert t[0] != "SECOND SEMESTER"[0];
    }
  }

  /** A string of digits (leading zeros allowed) is loosely equal to 1 exactly
      when its value is 1. */
  lemma DigitKeyIsFirst(s: string)
    requires AllDigits(s) && s != []
    ensures IsFirstSemester(StrKey(s)) <==> DigitsValue(s) == 1
  {
    assert SpaceRun(s) == 0;
    assert s[0..] == s;
    ScanInteger(s);
    assert ScanNumber(s) == ScanUnsigned(s);
    assert s[|s|..] == [];
  }

  /** A decimal key ip.frac is loosely equal to 1 exactly when its value is 1
      ("1.0", "1.00", "01.0"). */
  lemma DecimalKeyIsFirst(ip: string, frac: string)
    requires AllDigits(ip) && ip != [] && AllDigits(frac)
    ensures AllDigits(ip + frac)
    ensures IsFirstSemester(StrKey(ip + "." + frac)) <==> DigitsValue(ip + frac) == Pow10(|frac|)
  {
    var s := ip + "." + frac;
    AllDigitsAppend(ip, frac);
    assert s[0] == ip[0];
    assert SpaceRun(s) == 0;
    assert s[0..] == s;
    ScanFraction(ip, frac);
    assert ScanNumber(s) == ScanUnsigned(s);
    assert s[|s|..] == [];
  }

  /** A key with a minus sign is never loosely equal to 1. */
  lemma NegativeKeyIsNotFirst(t: string)
    requires t != [] && IsDigit(t[0])
    ensures !IsFirstSemester(StrKey("-" + t))
  {
    var s := "-" + t;
    assert SpaceRun(s) == 0;
    assert s[0..] == s;
    ScanSigned("-", t);
  }

  /** Leading whitespace does not change the comparison. */
  lemma SpacedKeyIsFirst(c: char, s: string)
    requires IsSpace(c)
    ensures IsFirstSemester(StrKey([c] + s)) <==> IsFirstSemester(StrKey(s))
  {
    var t := [c] + s;
    assert t[1..] == s;
    var k := SpaceRun(s);
    assert SpaceRun(t) == k + 1;
    assert t[k + 1..] == s[k..];
    match ScanNumber(s[k..])
    case NoNumber =>
    case Number(v, n) =>
      if k + n <= |s| {
        assert t[k + 1 + n..] == s[k + n..];
      }
  }

  /** Trailing whitespace after a digit key does not change the comparison. */
  lemma TrailingSpaceKeyIsFirst(s: string, c: char)
    requires AllDigits(s) && s != [] && IsSpace(c)
    ensures IsFirstSemester(StrKey(s + [c])) <==> DigitsValue(s) == 1
  {
    var t := s + [c];
    assert t[0] == s[0];
    assert SpaceRun(t) == 0;
    assert t[0..] == t;
    DigitRunStops(s, [c]);
    assert t[..|s|] == s;
    assert ScanNumber(t) == ScanUnsigned(t);
    assert t[|s|..] == [c];
    assert [c][1..] == [];
  }

  /** The student-info block: a line break, the photo (or the blank image), the
      four rows NAME, REGISTRATION NO, DEPARTMENT, YEAR OF ADMISSION, a closing
      rule as wide as a row and a gap of 5. Headers are 40 wide, always filled,
      bordered left and top; data cells are 75 wide, filled on the second and
      fourth rows only, bordered left and right, with a top border on the NAME
      row only. */
  lemma StudentInfoShape(st: Student)
    ensures var b := StudentInfoCommands(st);
            && |b| == 16
            && b[0] == LnOp(LastCellHeight)
            && b[1] == ImageOp(if PhpTruthy(st.photo) then st.photo else BlankImage, 28, 24)
            && (forall i :: i in {2, 5, 8, 11} ==>
                  b[i].CellOp? && b[i].w == 40 && b[i].h == 6 && b[i].border == Sides("LT") && b[i].fill
                  && b[i].align == Left && b[i].ln == 0)
            && [b[2].txt, b[5].txt, b[8].txt, b[11].txt] == ["NAME", "REGISTRATION NO", "DEPARTMENT", "YEAR OF ADMISSION"]
            && (forall i :: i in {3, 6, 9, 12} ==>
                  b[i].CellOp? && b[i].w == 75 && b[i].h == 6 && b[i].align == Left && b[i].ln == 0)
            && [b[3].txt, b[6].txt, b[9].txt, b[12].txt] == [st.names, st.regNo, st.deptName, st.academicYear]
            && [b[3].fill, b[6].fill, b[9].fill, b[12].fill] == [false, true, false, true]
            && [b[3].border, b[6].border, b[9].border, b[12].border] == [Sides("LRT"), Sides("LR"), Sides("LR"), Sides("LR")]
            && (forall i :: i in {4, 7, 10, 13} ==> b[i] == LnOp(LastCellHeight))
            && b[14] == CellOp(115, 0, "", Sides("T"), AlignDefault, false, 0)
            && b[14].w == b[2].w + b[3].w
            && b[15] == LnOp(Height(5))
  {
    assert "LR" + "T" == "LRT" && "LR" + "" == "LR";
  }

  predicate IsImage(c: Command)
  {
    c.ImageOp?
  }

  /** The gap that closes a table body. */
  predicate IsTableGap(c: Command)
  {
    c == LnOp(Height(TableGap))
  }

  /** A cell that moves to the next line afterwards: only semester titles do. */
  predicate IsSemesterTitle(c: Command)
  {
    c.CellOp? && c.ln == 1
  }

  /** How many images, table gaps and semester titles a log holds. */
  datatype Tally = Tally(images: nat, gaps: nat, titles: nat)

  function Counts(log: seq<Command>): Tally
  {
    Tally(CountWhere(log, IsImage), CountWhere(log, IsTableGap), CountWhere(log, IsSemesterTitle))
  }

  function Plus(a: Tally, b: Tally): Tally
  {
    Tally(a.images + b.images, a.gaps + b.gaps, a.titles + b.titles)
  }

  /** A command that is none of the counted kinds. */
  predicate Uncounted(c: Command)
  {
    !IsImage(c) && !IsTableGap(c) && !IsSemesterTitle(c)
  }

  function SemesterCount(sessions: seq<Session>): nat
  {
    if sessions == [] then 0 else SemesterCount(sessions[..|sessions| - 1]) + |sessions[|sessions| - 1].semesters|
  }

  /** Counting distributes over appending logs, for all three counted kinds. */
  lemma CountsAppend(a: seq<Command>, b: seq<Command>)
    ensures Counts(a + b) == Plus(Counts(a), Counts(b))
  {
    var ca, cb := Counts(a), Counts(b);
    assert Counts(a + b) == Tally(ca.images + cb.images, ca.gaps + cb.gaps, ca.titles + cb.titles) by {
      CountWhereAppend(a, b, IsImage);
      CountWhereAppend(a, b, IsTableGap);
      CountWhereAppend(a, b, IsSemesterTitle);
    }
    PlusFields(ca, cb);
  }

  lemma PlusFields(x: Tally, y: Tally)
    ensures Plus(x, y) == Tally(x.images + y.images, x.gaps + y.gaps, x.titles + y.titles)
  {
  }

  /** The counts of a log made of three blocks. */
  lemma CountsOfThree(log: seq<Command>, a: seq<Command>, b: seq<Command>, c: seq<Command>)
    requires log == a + b + c
    ensures Counts(log) == Plus(Plus(Counts(a), Counts(b)), Counts(c))
  {
    CountsAppend(a, b);
    CountsAppend(a + b, c);
  }

  lemma UncountedCounts(log: seq<Command>)
    requires forall i :: 0 <= i < |log| ==> Uncounted(log[i])
    ensures Counts(log) == Tally(0, 0, 0)
  {
    CountWhereNone(log, IsImage);
    CountWhereNone(log, IsTableGap);
    CountWhereNone(log, IsSemesterTitle);
  }

  lemma InfoRowCounts(header: string, data: string, fill: bool, topBorder: string)
    ensures Counts(InfoRowCommands(header, data, fill, topBorder)) == Tally(0, 0, 0)
  {
    UncountedCounts(InfoRowCommands(header, data, fill, topBorder));
  }

  lemma PhotoCounts(file: string)
    ensures Counts([LnOp(LastCellHeight), ImageOp(file, StudentPhotoWidth, StudentPhotoHeight)]) == Tally(1, 0, 0)
  {
    var head := [LnOp(LastCellHeight), ImageOp(file, StudentPhotoWidth, StudentPhotoHeight)];
    CountWhereOne(head, 1, IsImage);
    CountWhereNone(head, IsTableGap);
    CountWhereNone(head, IsSemesterTitle);
  }

  /** A student-info block holds exactly one image and neither a table gap nor a semester title. */
  lemma StudentInfoCounts(st: Student)
    ensures Counts(StudentInfoCommands(st)) == Tally(1, 0, 0)
  {
    var head := [LnOp(LastCellHeight), ImageOp(PhotoSource(st.photo), StudentPhotoWidth, StudentPhotoHeight)];
    var r1 := InfoRowCommands("NAME", st.names, false, "T");
    var r2 := InfoRowCommands("REGISTRATION NO", st.regNo, true, "");
    var r3 := InfoRowCommands("DEPARTMENT", st.deptName, false, "");
    var r4 := InfoRowCommands("YEAR OF ADMISSION", st.academicYear, true, "");
    var tail := [CellOp(InfoHeaderWidth + InfoDataWidth, 0, "", Sides("T"), AlignDefault, false, 0), LnOp(Height(InfoGap))];
    assert StudentInfoCommands(st) == head + r1 + r2 + r3 + r4 + tail;
    PhotoCounts(PhotoSource(st.photo));
    UncountedCounts(tail);
    InfoRowCounts("NAME", st.names, false, "T");
    InfoRowCounts("REGISTRATION NO", st.regNo, true, "");
    InfoRowCounts("DEPARTMENT", st.deptName, false, "");
    InfoRowCounts("YEAR OF ADMISSION", st.academicYear, true, "");
    CountsAppend(head, r1);
    CountsAppend(head + r1, r2);
    CountsAppend(head + r1 + r2, r3);
    CountsAppend(head + r1 + r2 + r3, r4);
    CountsAppend(head + r1 + r2 + r3 + r4, tail);
  }

  /** A table header holds exactly one semester title, and no image or table gap. */
  lemma TableHeaderCounts(session: string, key: SemesterKey, level: string)
    ensures Counts(TableHeaderCommands(session, key, level)) == Tally(0, 0, 1)
  {
    var title := [CellOp(TableWidth(), 0, SemesterTitle(session, key, level), NoBorder, Center, false, 1)];
    var labels, close := HeaderLabelCells(6), [LnOp(LastCellHeight)];
    HeaderLabelCellsAt(6);
    assert title[..0] == [];
    UncountedCounts(labels);
    UncountedCounts(close);
    CountsAppend(title, labels);
    CountsAppend(title + labels, close);
  }

  lemma RowCounts(c: Course, seqNo: nat, fill: bool)
    ensures Counts(RowCommands(c, seqNo, fill)) == Tally(0, 0, 0)
  {
    RowShape(c, seqNo, fill);
    UncountedCounts(RowCommands(c, seqNo, fill));
  }

  /** Rows none of which holds a counted command hold none together. */
  lemma {:induction false} NumberedCountNone<T>(xs: seq<T>, seqNo: nat, fill: bool, row: (T, nat, bool) -> seq<Command>)
    requires forall x, n, b :: Counts(row(x, n, b)) == Tally(0, 0, 0)
    ensures Counts(Numbered(xs, seqNo, fill, row)) == Tally(0, 0, 0)
  {
    if xs != [] {
      NumberedCountNone(xs[1..], seqNo + 1, !fill, row);
      CountsAppend(row(xs[0], seqNo, fill), Numbered(xs[1..], seqNo + 1, !fill, row));
    }
  }

  /** A table body holds exactly one table gap (its last command), and no image or semester title. */
  lemma TableBodyCounts(cs: seq<Course>)
    ensures Counts(TableBodyCommands(cs)) == Tally(0, 1, 0)
  {
    forall c, n, f ensures Counts(RowCommands(c, n, f)) == Tally(0, 0, 0) {
      RowCounts(c, n, f);
    }
    var gap := [LnOp(Height(TableGap))];
    NumberedCountNone(cs, 1, false, RowCommands);
    assert gap[..0] == [];
    CountsAppend(RowsFrom(cs, 1, false), gap);
  }

  /** The semesters of one session: one title and one closing gap per semester, no image. */
  lemma {:induction false} SemestersCounts(regNo: string, session: string, sems: seq<Semester>, profiles: Profiles)
    ensures Counts(SemestersCommands(regNo, session, sems, profiles)) == Tally(0, |sems|, |sems|)
  {
    if sems != [] {
      var init, last := sems[..|sems| - 1], sems[|sems| - 1];
      var before := SemestersCommands(regNo, session, init, profiles);
      var h := TableHeaderCommands(session, last.key, LevelOf(profiles, regNo, session));
      SemestersCounts(regNo, session, init, profiles);
      TableHeaderCounts(session, last.key, LevelOf(profiles, regNo, session));
      TableBodyCounts(last.courses);
      CountsOfThree(SemestersCommands(regNo, session, sems, profiles), before, h, TableBodyCommands(last.courses));
    }
  }

  /** A whole transcript: one student-info block (the only images) per
      session, and one semester title and one closing gap per semester. */
  lemma {:induction false} TranscriptCounts(st: Student, sessions: seq<Session>, profiles: Profiles)
    ensures Counts(TranscriptCommands(st, sessions, profiles)) == Tally(|sessions|, SemesterCount(sessions), SemesterCount(sessions))
  {
    if sessions != [] {
      var init, last := sessions[..|sessions| - 1], sessions[|sessions| - 1];
      var before := TranscriptCommands(st, init, profiles);
      TranscriptCounts(st, init, profiles);
      StudentInfoCounts(st);
      SemestersCounts(st.regNo, last.name, last.semesters, profiles);
      CountsOfThree(TranscriptCommands(st, sessions, profiles), before, StudentInfoCommands(st),
                    SemestersCommands(st.regNo, last.name, last.semesters, profiles));
    }
  }

  /** The quality point is computed from the credit unit as printed (rounded to
      one decimal), not from the unit itself, as long as the printed unit has no
      thousands separator. */
  lemma QualityPointOfPrintedUnit(c: Course)
    requires Abs(RoundHalfAway(c.unit, 1)) < 10000
    ensures QualityPointText(c) == NumberFormat(Times(Decimal(RoundHalfAway(c.unit, 1), 1), c.point), 2)
  {
    var u := RoundHalfAway(c.unit, 1);
    assert DropDigits(Abs(u), 1) == DropDigits(Abs(u) / 10, 0);
    FloatValOfFormatFixed(u, 1);
  }

  lemma PrintsTwoPointFive()
    ensures NumberFormat(Decimal(245, 2), 1) == "2.5"
  {
    assert RoundHalfAway(Decimal(245, 2), 1) == 25;
    assert NatToString(2) == "2";
    assert PadDigits(25, 1) == "5";
  }

  lemma PrintsTen()
    ensures NumberFormat(Decimal(100, 1), 2) == "10.00"
  {
    assert RoundHalfAway(Decimal(100, 1), 2) == 1000;
    assert DropDigits(1000, 2) == 10;
    assert NatToString(1) == "1";
    assert NatToString(10) == "10";
    assert Group("10") == "10";
    assert PadDigits(1000, 2) == "00";
  }

  /** Half away from zero: a credit unit of 2.45 prints as 2.5 and a grade
      point of 4 then gives a quality point of 10.00 (not 9.80). */
  lemma RoundedUnitExample(c: Course)
    requires c == Course("Physics", "PHY 101", Decimal(245, 2), "65", "B", Decimal(4, 0))
    ensures UnitText(c) == "2.5" && QualityPointText(c) == "10.00"
  {
    PrintsTwoPointFive();
    assert RoundHalfAway(c.unit, 1) == 25;
    assert UnitText(c) == FormatFixed(25, 1) == "2.5";
    FloatValOfFormatFixed(25, 1);
    var read := FloatVal(UnitText(c));
    assert read == Decimal(25, 1);
    assert Times(read, c.point) == Decimal(100, 1) by {
      assert Mul(25, 4) == 100;
    }
    PrintsTen();
  }

  lemma PrintsOneThousand()
    ensures NumberFormat(Decimal(1000, 0), 1) == "1,000.0"
  {
    assert RoundHalfAway(Decimal(1000, 0), 1) == 10000;
    assert DropDigits(10000, 1) == 1000;
    assert NatToString(1000) == "1000";
    assert Group("1000") == "1,000";
    assert PadDigits(10000, 1) == "0";
  }

  lemma ReadsLeadingGroup()
    ensures FloatVal("1,000.0") == Decimal(1, 0)
  {
    var u := "1,000.0";
    assert !IsSpace(u[0]);
    assert u[1..] == ",000.0" && u[..1] == "1" && "1"[..0] == [];
    assert DigitRun(",000.0") == 0;
    assert DigitRun(u) == 1;
    assert ScanNumber(u) == Number(Decimal(1, 0), 1);
  }

  lemma PrintsFive()
    ensures NumberFormat(Decimal(5, 0), 2) == "5.00"
  {
    assert RoundHalfAway(Decimal(5, 0), 2) == 500;
    assert NatToString(5) == "5";
    assert PadDigits(500, 2) == "00";
  }

  /** The unit is printed with a thousands separator from 1000 on, and floatval
      stops reading at the ',': a unit of 1000 prints as "1,000.0" and is read
      back as 1, so a grade point of 5 gives a quality point of 5.00. */
  lemma GroupedUnitExample(c: Course)
    requires c == Course("Project", "PRJ 599", Decimal(1000, 0), "70", "A", Decimal(5, 0))
    ensures UnitText(c) == "1,000.0" && FloatVal(UnitText(c)) == Decimal(1, 0) && QualityPointText(c) == "5.00"
  {
    PrintsOneThousand();
    assert UnitText(c) == "1,000.0";
    ReadsLeadingGroup();
    var read := FloatVal(UnitText(c));
    assert read == Decimal(1, 0);
    assert Times(read, c.point) == Decimal(5, 0) by {
      assert Mul(1, 5) == 5;
    }
    PrintsFive();
  }
}
