/** The layout sequencing of TranscriptToPDF: for a student's record it decides
    which drawing commands are issued and in what order — a student-info block
    per session, then for every semester of that session a table header
    followed by a table body of one row per course. */
module Transcript {
  import opened PhpText
  import opened Canvas

  /** One course result as the record gives it: `unit` and `point` are numbers,
      `score` and `grade` are printed as they come. */
  datatype Course = Course(title: string, code: string, unit: Decimal, score: string, grade: string, point: Decimal)

  /** The identity block. A missing photo is the empty string (PHP's null and ''
      behave alike here: both are falsy). */
  datatype Student = Student(names: string, regNo: string, deptName: string, academicYear: string, photo: string)

  /** A PHP array key: an integer, or a string that is not a canonical integer. */
  datatype SemesterKey = IntKey(n: int) | StrKey(s: string)

  datatype Semester = Semester(key: SemesterKey, courses: seq<Course>)

  /** One academic session (e.g. "2014/2015") with its semesters in the record's order. */
  datatype Session = Session(name: string, semesters: seq<Semester>)

  /** What StudentProfile::getCurrentForSession answers: the level of a student
      (by registration number) in a session. */
  type Profiles = map<(string, string), string>

  // Table layout: one entry per column (sequence, title, code, unit, score + grade, quality point).
  const CourseColumnWidths: seq<nat> := [14, 81, 22, 19, 25, 20]
  const CourseColumnAligns: seq<Align> := [Right, Left, Left, Center, Right, Center]
  const HeaderLabels: seq<string> :=
    ["S/NO.", "COURSE TITLE", "COURSE CODE", "CREDIT UNIT", "GRADE OBTAINED", "QUALITY POINT"]
  const HeaderRowHeight: nat := 10
  const RowHeightSingle: nat := 6
  const RowHeightDouble: nat := 12
  const MaxLenCharsPerLine: nat := 45
  const SequenceBorder: Border := Sides("LTB")
  const BodyBorder: Border := Sides("LRTB")
  const TableGap: nat := 10

  // Student-info block layout.
  const StudentPhotoWidth: nat := 28
  const StudentPhotoHeight: nat := 24
  const InfoHeaderWidth: nat := 40
  const InfoDataWidth: nat := 75
  const InfoRowHeight: nat := 6
  const InfoGap: nat := 5
  /** TCPDF's K_BLANK_IMAGE. */
  const BlankImage: string := "_blank.png"

  function Sum(ws: seq<nat>): nat
  {
    if ws == [] then 0 else Sum(ws[..|ws| - 1]) + ws[|ws| - 1]
  }

  /** array_sum of the column widths: the width of the semester title cell. */
  function TableWidth(): nat
  {
    Sum(CourseColumnWidths)
  }

  /** PHP truthiness of a string: everything but '' and '0'. */
  predicate PhpTruthy(s: string)
  {
    s != "" && s != "0"
  }

  function PhotoSource(photo: string): string
  {
    if PhpTruthy(photo) then photo else BlankImage
  }

  /** One header/data row of the student-info block. */
  function InfoRowCommands(header: string, data: string, fill: bool, topBorder: string): seq<Command>
  {
    [ CellOp(InfoHeaderWidth, InfoRowHeight, header, Sides("LT"), Left, true, 0),
      CellOp(InfoDataWidth, InfoRowHeight, data, Sides("LR" + topBorder), Left, fill, 0),
      LnOp(LastCellHeight) ]
  }

  function StudentInfoCommands(st: Student): seq<Command>
  {
    [LnOp(LastCellHeight), ImageOp(PhotoSource(st.photo), StudentPhotoWidth, StudentPhotoHeight)]
    + InfoRowCommands("NAME", st.names, false, "T")
    + InfoRowCommands("REGISTRATION NO", st.regNo, true, "")
    + InfoRowCommands("DEPARTMENT", st.deptName, false, "")
    + InfoRowCommands("YEAR OF ADMISSION", st.academicYear, true, "")
    + [CellOp(InfoHeaderWidth + InfoDataWidth, 0, "", Sides("T"), AlignDefault, false, 0), LnOp(Height(InfoGap))]
  }

  /** PHP's loose `$semesterNumber == 1`. */
  predicate IsFirstSemester(key: SemesterKey)
  {
    match key
    case IntKey(n) => n == 1
    case StrKey(s) => LooselyEqualsOne(s)
  }

  /** The level the profile lookup gives; a missing row interpolates as ''. */
  function LevelOf(profiles: Profiles, regNo: string, session: string): string
  {
    if (regNo, session) in profiles then profiles[(regNo, session)] else ""
  }

  function SemesterTitle(session: string, key: SemesterKey, level: string): string
  {
    if IsFirstSemester(key) then "FIRST SEMESTER - " + level + " (" + session + ")" else "SECOND SEMESTER"
  }

  function HeaderLabelCell(i: nat): Command
    requires i < 6
  {
    MultiCellOp(CourseColumnWidths[i], HeaderRowHeight, HeaderLabels[i], Frame, Center, true, 0)
  }

  /** The first n column-label cells of the table header. */
  function HeaderLabelCells(n: nat): seq<Command>
    requires n <= 6
  {
    if n == 0 then [] else HeaderLabelCells(n - 1) + [HeaderLabelCell(n - 1)]
  }

  function TableHeaderCommands(session: string, key: SemesterKey, level: string): seq<Command>
  {
    [CellOp(TableWidth(), 0, SemesterTitle(session, key, level), NoBorder, Center, false, 1)]
    + HeaderLabelCells(6)
    + [LnOp(LastCellHeight)]
  }

  /** The credit unit as printed: number_format(unit, 1). */
  function UnitText(c: Course): string
  {
    NumberFormat(c.unit, 1)
  }

  /** The quality point as printed: the printed unit read back with floatval,
      times the grade point, through number_format(_, 2). */
  function QualityPointText(c: Course): string
  {
    NumberFormat(Times(FloatVal(UnitText(c)), c.point), 2)
  }

  /** strlen(title) <= 45: the row is drawn with single-line cells. */
  predicate FitsOneLine(c: Course)
  {
    StrLen(c.title) <= MaxLenCharsPerLine
  }

  function BodyCell(oneLine: bool, w: nat, h: nat, txt: string, border: Border, align: Align, fill: bool): Command
  {
    if oneLine then CellOp(w, h, txt, border, align, fill, 0) else MultiCellOp(w, h, txt, border, align, fill, 0)
  }

  /** The commands for one course row, given the printed unit and quality point. */
  function RowCells(c: Course, seqNo: nat, fill: bool, unit: string, point: string): seq<Command>
  {
    var one := FitsOneLine(c);
    var h := if one then RowHeightSingle else RowHeightDouble;
    [ BodyCell(one, CourseColumnWidths[0], h, NatToString(seqNo), SequenceBorder, Right, fill),
      BodyCell(one, CourseColumnWidths[1], h, c.title, BodyBorder, Left, fill),
      BodyCell(one, CourseColumnWidths[2], h, c.code, BodyBorder, Left, fill),
      BodyCell(one, CourseColumnWidths[3], h, unit, BodyBorder, Center, fill),
      BodyCell(one, CourseColumnWidths[4], h, c.score + " " + c.grade, BodyBorder, Right, fill),
      BodyCell(one, CourseColumnWidths[5], h, point, BodyBorder, Center, fill),
      LnOp(LastCellHeight) ]
  }

  /** The commands for one course row with sequence number seqNo and fill flag fill. */
  function RowCommands(c: Course, seqNo: nat, fill: bool): seq<Command>
  {
    RowCells(c, seqNo, fill, UnitText(c), QualityPointText(c))
  }

  /** Rows drawn by `row` for the items xs when the running counter is at seqNo
      and the fill flag at fill: each row uses them, then the counter goes up
      and the flag flips. */
  function Numbered<T>(xs: seq<T>, seqNo: nat, fill: bool, row: (T, nat, bool) -> seq<Command>): seq<Command>
  {
    if xs == [] then [] else row(xs[0], seqNo, fill) + Numbered(xs[1..], seqNo + 1, !fill, row)
  }

  /** The course rows of a table body, counter and fill flag running from seqNo and fill. */
  function RowsFrom(cs: seq<Course>, seqNo: nat, fill: bool): seq<Command>
  {
    Numbered(cs, seqNo, fill, RowCommands)
  }

  /** A table body: counter from 1, fill from off, then a gap of 10. */
  function TableBodyCommands(cs: seq<Course>): seq<Command>
  {
    RowsFrom(cs, 1, false) + [LnOp(Height(TableGap))]
  }

  /** One header and one body per semester, in the session's order. */
  function SemestersCommands(regNo: string, session: string, sems: seq<Semester>, profiles: Profiles): seq<Command>
  {
    if sems == [] then []
    else
      var last := sems[|sems| - 1];
      SemestersCommands(regNo, session, sems[..|sems| - 1], profiles)
      + TableHeaderCommands(session, last.key, LevelOf(profiles, regNo, session))
      + TableBodyCommands(last.courses)
  }

  /** The whole transcript: for each session a student-info block and its semesters. */
  function TranscriptCommands(st: Student, sessions: seq<Session>, profiles: Profiles): seq<Command>
  {
    if sessions == [] then []
    else
      var last := sessions[|sessions| - 1];
      TranscriptCommands(st, sessions[..|sessions| - 1], profiles)
      + StudentInfoCommands(st)
      + SemestersCommands(st.regNo, last.name, last.semesters, profiles)
  }

  /** n is odd, counted down without arithmetic. The loop invariant on the
      fill flag is stated with Odd so that it needs no reasoning about %;
      OddIsParity ties it to n % 2 == 1. */
  predicate Odd(n: nat)
  {
    n != 0 && !Odd(n - 1)
  }

  /** Appending one item appends its row, numbered after the others and with
      the fill flag flipped once per earlier row. */
  lemma {:induction false} NumberedSnoc<T>(xs: seq<T>, x: T, seqNo: nat, fill: bool, row: (T, nat, bool) -> seq<Command>)
    ensures Numbered(xs + [x], seqNo, fill, row)
            == Numbered(xs, seqNo, fill, row) + row(x, seqNo + |xs|, fill != Odd(|xs|))
  {
    if xs == [] {
      assert [x][1..] == [];
    } else {
      assert (xs + [x])[1..] == xs[1..] + [x];
      NumberedSnoc(xs[1..], x, seqNo + 1, !fill, row);
    }
  }

  lemma RowsFromSnoc(cs: seq<Course>, i: nat)
    requires i < |cs|
    ensures RowsFrom(cs[..i + 1], 1, false) == RowsFrom(cs[..i], 1, false) + RowCommands(cs[i], i + 1, Odd(i))
  {
    assert cs[..i + 1] == cs[..i] + [cs[i]];
    NumberedSnoc(cs[..i], cs[i], 1, false, RowCommands);
  }

  /** A log that has just drawn semester j of `sems` after the first j of them. */
  lemma SemestersSnoc(log: seq<Command>, info: seq<Command>, regNo: string, session: string, sems: seq<Semester>, j: nat,
                      profiles: Profiles)
    requires j < |sems|
    requires log == info + SemestersCommands(regNo, session, sems[..j], profiles)
                    + TableHeaderCommands(session, sems[j].key, LevelOf(profiles, regNo, session))
                    + TableBodyCommands(sems[j].courses)
    ensures log == info + SemestersCommands(regNo, session, sems[..j + 1], profiles)
  {
    assert sems[..j + 1][..j] == sems[..j];
    AppendAssoc(info, SemestersCommands(regNo, session, sems[..j], profiles)
                      + TableHeaderCommands(session, sems[j].key, LevelOf(profiles, regNo, session)),
                TableBodyCommands(sems[j].courses));
    AppendAssoc(info, SemestersCommands(regNo, session, sems[..j], profiles),
                TableHeaderCommands(session, sems[j].key, LevelOf(profiles, regNo, session)));
  }

  /** A log that has just drawn session i of `sessions` after the first i of them. */
  lemma TranscriptSnoc(log: seq<Command>, st: Student, sessions: seq<Session>, i: nat, profiles: Profiles)
    requires i < |sessions|
    requires log == TranscriptCommands(st, sessions[..i], profiles) + StudentInfoCommands(st)
                    + SemestersCommands(st.regNo, sessions[i].name, sessions[i].semesters, profiles)
    ensures log == TranscriptCommands(st, sessions[..i + 1], profiles)
  {
    assert sessions[..i + 1][..i] == sessions[..i];
  }

  /** The PDF being built. It stands for the TCPDF subclass: `log` is every
      drawing call made so far; Cell, MultiCell, Ln and Image are the inherited
      drawing primitives, which only record their call. */
  class TranscriptToPdf {
    var log: seq<Command>
    var regNo: string
    /** The student-profile table consulted for semester titles. */
    const profiles: Profiles

    /** Lays out the whole transcript of `student` (the PDF download at the end is not modelled). */
    constructor (student: Student, sessions: seq<Session>, profiles: Profiles)
      ensures this.profiles == profiles && regNo == student.regNo
      ensures log == TranscriptCommands(student, sessions, profiles)
    {
      this.profiles := profiles;
      log := [];
      regNo := student.regNo;
      new;
      for i := 0 to |sessions|
        invariant regNo == student.regNo
        invariant log == TranscriptCommands(student, sessions[..i], profiles)
      {
        var session := sessions[i];
        DrawStudentInfo(student);
        DrawSemesters(session);
        TranscriptSnoc(log, student, sessions, i, profiles);
      }
      assert sessions[..|sessions|] == sessions;
    }

    /** The inner loop of the constructor: a table header and a table body for
        each semester of `session`, in the record's order. */
    method DrawSemesters(session: Session)
      modifies this`log
      ensures log == old(log) + SemestersCommands(regNo, session.name, session.semesters, profiles)
    {
      for j := 0 to |session.semesters|
        invariant log == old(log) + SemestersCommands(regNo, session.name, session.semesters[..j], profiles)
      {
        var semester := session.semesters[j];
        DrawTableHeader(session.name, semester.key);
        DrawTableBody(semester.courses);
        SemestersSnoc(log, old(log), regNo, session.name, session.semesters, j, profiles);
      }
      assert session.semesters[..|session.semesters|] == session.semesters;
    }

    /** TCPDF's Cell, with the library's defaults for omitted arguments. */
    method Cell(w: nat, h: nat := 0, txt: string := "", border: Border := NoBorder, ln: nat := 0,
                align: Align := AlignDefault, fill: bool := false)
      modifies this`log
      ensures log == old(log) + [CellOp(w, h, txt, border, align, fill, ln)]
    {
      log := log + [CellOp(w, h, txt, border, align, fill, ln)];
    }

    method MultiCell(w: nat, h: nat, txt: string, border: Border, align: Align, fill: bool, ln: nat)
      modifies this`log
      ensures log == old(log) + [MultiCellOp(w, h, txt, border, align, fill, ln)]
    {
      log := log + [MultiCellOp(w, h, txt, border, align, fill, ln)];
    }

    method Ln(lh: LineHeight)
      modifies this`log
      ensures log == old(log) + [LnOp(lh)]
    {
      log := log + [LnOp(lh)];
    }

    method Image(file: string, w: nat, h: nat)
      modifies this`log
      ensures log == old(log) + [ImageOp(file, w, h)]
    {
      log := log + [ImageOp(file, w, h)];
    }

    method DrawStudentInfo(student: Student)
      modifies this`log
      ensures log == old(log) + StudentInfoCommands(student)
    {
      ghost var before := log;
      Ln(LastCellHeight);
      var photo := student.photo;
      Image(if PhpTruthy(photo) then photo else BlankImage, StudentPhotoWidth, StudentPhotoHeight);
      DrawStudentInfoRow("NAME", student.names, false, "T");
      DrawStudentInfoRow("REGISTRATION NO", student.regNo, true, "");
      DrawStudentInfoRow("DEPARTMENT", student.deptName, false, "");
      DrawStudentInfoRow("YEAR OF ADMISSION", student.academicYear, true, "");
      Cell(InfoHeaderWidth + InfoDataWidth, 0, "", Sides("T"));
      Ln(Height(InfoGap));
      BlocksAppended(log, before, [LnOp(LastCellHeight), ImageOp(PhotoSource(photo), StudentPhotoWidth, StudentPhotoHeight)],
                     InfoRowCommands("NAME", student.names, false, "T"),
                     InfoRowCommands("REGISTRATION NO", student.regNo, true, ""),
                     InfoRowCommands("DEPARTMENT", student.deptName, false, ""),
                     InfoRowCommands("YEAR OF ADMISSION", student.academicYear, true, ""),
                     [CellOp(InfoHeaderWidth + InfoDataWidth, 0, "", Sides("T"), AlignDefault, false, 0), LnOp(Height(InfoGap))]);
    }

    /** The header cell is always filled with a left and top border; the data
        cell has left and right borders plus `topBorder`, filled as `fill` says. */
    method DrawStudentInfoRow(header: string, data: string, fill: bool, topBorder: string)
      modifies this`log
      ensures log == old(log) + InfoRowCommands(header, data, fill, topBorder)
    {
      Cell(InfoHeaderWidth, InfoRowHeight, header, Sides("LT"), 0, Left, true);
      Cell(InfoDataWidth, InfoRowHeight, data, Sides("LR" + topBorder), 0, Left, fill);
      Ln(LastCellHeight);
    }

    method DrawTableHeader(session: string, semesterNumber: SemesterKey)
      modifies this`log
      ensures log == old(log) + TableHeaderCommands(session, semesterNumber, LevelOf(profiles, regNo, session))
    {
      var level := LevelOf(profiles, regNo, session);
      var semesterText := if IsFirstSemester(semesterNumber)
                          then "FIRST SEMESTER - " + level + " (" + session + ")"
                          else "SECOND SEMESTER";
      ghost var start := log;
      Cell(Sum(CourseColumnWidths), 0, semesterText, NoBorder, 1, Center);
      ghost var title := log;
      var numHeaders := |CourseColumnWidths|;
      for index := 0 to numHeaders
        invariant log == title + HeaderLabelCells(index)
      {
        MultiCell(CourseColumnWidths[index], HeaderRowHeight, HeaderLabels[index], Frame, Center, true, 0);
        AppendAssoc(title, HeaderLabelCells(index), [HeaderLabelCell(index)]);
      }
      Ln(LastCellHeight);
      AppendAssoc(start, [CellOp(TableWidth(), 0, semesterText, NoBorder, Center, false, 1)], HeaderLabelCells(6));
      AppendAssoc(start, [CellOp(TableWidth(), 0, semesterText, NoBorder, Center, false, 1)] + HeaderLabelCells(6),
                  [LnOp(LastCellHeight)]);
    }

    /** One pass of the row loop of _drawTableBody: draws the row of `course`
        numbered seqNo and returns the incremented number. */
    method DrawCourseRow(course: Course, seqNo: nat, fill: bool) returns (nextSeqNo: nat)
      modifies this`log
      ensures nextSeqNo == seqNo + 1
      ensures log == old(log) + RowCommands(course, seqNo, fill)
    {
      var rowHeightSingle, rowHeightDouble := RowHeightSingle, RowHeightDouble;
      var border, nextPos, maxLenCharsPerLine := BodyBorder, 0, MaxLenCharsPerLine;
      nextSeqNo := seqNo;
      var title := course.title;
      var unit := NumberFormat(course.unit, 1);
      var point := NumberFormat(Times(FloatVal(unit), course.point), 2);
      ghost var before := log;
      if StrLen(title) <= maxLenCharsPerLine {
        Cell(CourseColumnWidths[0], rowHeightSingle, NatToString(nextSeqNo), SequenceBorder, nextPos, Right, fill);
        nextSeqNo := nextSeqNo + 1;
        Cell(CourseColumnWidths[1], rowHeightSingle, title, border, nextPos, Left, fill);
        Cell(CourseColumnWidths[2], rowHeightSingle, course.code, border, nextPos, Left, fill);
        Cell(CourseColumnWidths[3], rowHeightSingle, unit, border, nextPos, Center, fill);
        Cell(CourseColumnWidths[4], rowHeightSingle, course.score + " " + course.grade, border, nextPos, Right, fill);
        Cell(CourseColumnWidths[5], rowHeightSingle, point, border, nextPos, Center, fill);
      } else {
        MultiCell(CourseColumnWidths[0], rowHeightDouble, NatToString(nextSeqNo), SequenceBorder, Right, fill, nextPos);
        nextSeqNo := nextSeqNo + 1;
        MultiCell(CourseColumnWidths[1], rowHeightDouble, title, border, Left, fill, nextPos);
        MultiCell(CourseColumnWidths[2], rowHeightDouble, course.code, border, Left, fill, nextPos);
        MultiCell(CourseColumnWidths[3], rowHeightDouble, unit, border, Center, fill, nextPos);
        MultiCell(CourseColumnWidths[4], rowHeightDouble, course.score + " " + course.grade, border, Right, fill, nextPos);
        MultiCell(CourseColumnWidths[5], rowHeightDouble, point, border, Center, fill, nextPos);
      }
      Ln(LastCellHeight);
      SevenAppended(before, RowCells(course, seqNo, fill, unit, point), log);
      assert log == before + RowCommands(course, seqNo, fill);
    }

    method DrawTableBody(coursesScores: seq<Course>)
      modifies this`log
      ensures log == old(log) + TableBodyCommands(coursesScores)
    {
      var fill := false;
      var seqNo: nat := 1;
      for i := 0 to |coursesScores|
        invariant seqNo == i + 1
        invariant fill == Odd(i)
        invariant log == old(log) + RowsFrom(coursesScores[..i], 1, false)
      {
        var course := coursesScores[i];
        seqNo := DrawCourseRow(course, seqNo, fill);
        fill := !fill;
        RowsFromSnoc(coursesScores, i);
        AppendAssoc(old(log), RowsFrom(coursesScores[..i], 1, false), RowCommands(course, i + 1, !fill));
      }
      assert coursesScores[..|coursesScores|] == coursesScores;
      Ln(Height(TableGap));
    }
  }
}
