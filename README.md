# Transcript layout

This project models how the academic transcript PDF of the fedportal admin
module is laid out (`TranscriptToPDF`). It records which drawing commands are
issued, in what order and with which arguments. The commands are TCPDF's
`Cell`, `MultiCell`, `Ln` and `Image`. The PDF class becomes the Dafny class
`Transcript.TranscriptToPdf`. Its append-only `log` holds every drawing call
made so far. Each drawing method is proved to append exactly the commands of a
specification function, for example `StudentInfoCommands`, `TableHeaderCommands`,
`TableBodyCommands`, `SemestersCommands` or `TranscriptCommands`. The lemmas in
`TranscriptProperties` prove what the layout promises about those functions.

The layout of a transcript:
- for every session, a student-info block;
- then, for every semester of that session, a table header and a table body;
- each table body holds one row per course. A row has six cells and a line
  break. The row numbers run from 1, the fill alternates between rows, and a
  title longer than 45 bytes makes the row out of two-line `MultiCell`s.

Files:
- `php_text.dfy` (module `PhpText`): the PHP built-ins the layout depends on.
  These are `number_format`, `floatval`, `strlen` and the loose `==` against 1.
  They are written over exact decimals.
- `canvas.dfy` (module `Canvas`): the drawing-command datatype and facts about
  logs of commands.
- `transcript.dfy` (module `Transcript`): the record's data model, the
  specification functions and the class with its drawing methods.
- `transcript_properties.dfy` (module `TranscriptProperties`): the properties.

All source paths below are in `admin_academics/assessment/transcript/TranscriptToPDF.php`.

## Model

| member | source | states |
|---|---|---|
| Transcript.TranscriptToPdf.constructor | admin_academics/assessment/transcript/TranscriptToPDF.php:50-68 | The log is exactly the transcript for all sessions, in order: a student-info block per session, followed by that session's semesters. `regNo` is the student's registration number. |
| Transcript.TranscriptToPdf.DrawSemesters | admin_academics/assessment/transcript/TranscriptToPDF.php:63-67 | Appends, for each semester in the record's order, its table header and then its table body. |
| Transcript.TranscriptToPdf.DrawStudentInfo | admin_academics/assessment/transcript/TranscriptToPDF.php:109-129 | Appends the student-info block: a line break, the photo or the blank image, the four info rows, a top-border rule and a gap of 5. |
| Transcript.TranscriptToPdf.DrawStudentInfoRow | admin_academics/assessment/transcript/TranscriptToPDF.php:145-164 | Appends the header cell (filled, bordered 'LT'), then the data cell (bordered 'LR' plus the extra top border, filled as asked), then a line break. |
| Transcript.TranscriptToPdf.DrawTableHeader | admin_academics/assessment/transcript/TranscriptToPDF.php:175-214 | Appends the semester title cell, then the six label MultiCells, then a line break. The title uses the student's level in that session. |
| Transcript.TranscriptToPdf.DrawCourseRow | admin_academics/assessment/transcript/TranscriptToPDF.php:236-258 | Appends the row of one course with the given number and fill, and returns the number plus one. |
| Transcript.TranscriptToPdf.DrawTableBody | admin_academics/assessment/transcript/TranscriptToPDF.php:221-263 | Appends the course rows (numbered from 1, fill starting off and flipping after each row), then Ln(10). |
| TranscriptProperties.ColumnWidthsTotal | admin_academics/assessment/transcript/TranscriptToPDF.php:12-19 | The six column widths add up to 181. |
| TranscriptProperties.OddIsParity | admin_academics/assessment/transcript/TranscriptToPDF.php:233-259 | The fill flag starts off and is flipped once per row, so it is on before row k exactly when k is odd. |
| TranscriptProperties.RowCellsShape | admin_academics/assessment/transcript/TranscriptToPDF.php:241-258 | A row is six cells and a line break. Each cell has its column's width and alignment (R,L,L,C,R,C), the row's fill and ln 0. Borders are 'LTB' on the number cell and 'LRTB' elsewhere. Texts, in order: number, title, code, unit, score + " " + grade, quality point. |
| TranscriptProperties.RowShape | admin_academics/assessment/transcript/TranscriptToPDF.php:238-258 | The row as drawn has the same seven-command shape, widths, alignments, borders and fill as RowCellsShape. Cell is used exactly when strlen(title) <= 45, with height 6; MultiCell otherwise, with height 12. The six texts are the sequence number, the title, the code, the printed unit, score and grade joined by a space, and the printed quality point. |
| TranscriptProperties.RowSpansTable | admin_academics/assessment/transcript/TranscriptToPDF.php:242-247 | The six cells of a row together span the table width, 181. |
| TranscriptProperties.NumberedAt | admin_academics/assessment/transcript/TranscriptToPDF.php:233-260 | Block k of rows drawn from counter n and flag f is the row of item k, numbered n + k, with f flipped k times. |
| TranscriptProperties.TableBodyRows | admin_academics/assessment/transcript/TranscriptToPDF.php:233-262 | A table body is one seven-command block per course, in order. Block k is the row of course k, numbered k + 1 and filled exactly when k is odd. The body ends with Ln(10). |
| TranscriptProperties.TableBodyNumbering | admin_academics/assessment/transcript/TranscriptToPDF.php:233-259 | Row k's first cell reads k + 1, so rows are numbered 1..N. All six of its cells have fill k % 2 == 1, and the row ends with Ln. |
| TranscriptProperties.TitleRowKind | admin_academics/assessment/transcript/TranscriptToPDF.php:241 | A title of more than 45 characters never fits on one line; one of at most 11 characters always fits. For ASCII titles the row fits exactly when the length is at most 45. |
| TranscriptProperties.TableHeaderShape | admin_academics/assessment/transcript/TranscriptToPDF.php:187-213 | A header has eight commands. First, Cell(181, 0, title, no border, ln 1, centred). Then the six labels as filled, framed, centred MultiCells of height 10 in column order. Then Ln. |
| TranscriptProperties.HeaderAlignsWithBody | admin_academics/assessment/transcript/TranscriptToPDF.php:187-247 | Every label cell is as wide as the body cells of its column, and the title cell is as wide as a body row. |
| TranscriptProperties.SemesterTitleCases | admin_academics/assessment/transcript/TranscriptToPDF.php:179 | The title is "SECOND SEMESTER" exactly when the key is not loosely equal to 1. It starts with "FIRST SEMESTER - " exactly when the key is loosely equal to 1. |
| TranscriptProperties.DigitKeyIsFirst | admin_academics/assessment/transcript/TranscriptToPDF.php:179 | A digit-string key such as "01" compares loosely equal to 1 exactly when its value is 1. |
| TranscriptProperties.DecimalKeyIsFirst | admin_academics/assessment/transcript/TranscriptToPDF.php:179 | A decimal-string key such as "1.0" compares loosely equal to 1 exactly when its value is 1. |
| TranscriptProperties.NegativeKeyIsNotFirst | admin_academics/assessment/transcript/TranscriptToPDF.php:179 | A key with a minus sign is never the first semester. |
| TranscriptProperties.SpacedKeyIsFirst | admin_academics/assessment/transcript/TranscriptToPDF.php:179 | Leading whitespace in a key does not change the comparison. |
| TranscriptProperties.TrailingSpaceKeyIsFirst | admin_academics/assessment/transcript/TranscriptToPDF.php:179 | Trailing whitespace after a digit key does not change the comparison. |
| TranscriptProperties.StudentInfoShape | admin_academics/assessment/transcript/TranscriptToPDF.php:109-164 | The student-info block has 16 commands: Ln, then the photo or K_BLANK_IMAGE at 28x24, then four rows. Headers are 40 wide, filled and bordered 'LT'. Data cells are 75 wide, with fills 0,1,0,1 and a 'T' border only on NAME. The rule is 115 wide, then Ln(5). |
| TranscriptProperties.StudentInfoCounts | admin_academics/assessment/transcript/TranscriptToPDF.php:109-129 | A student-info block draws one image, no table gap and no semester title. |
| TranscriptProperties.TableHeaderCounts | admin_academics/assessment/transcript/TranscriptToPDF.php:175-214 | A table header draws exactly one semester title, and no image or table gap. |
| TranscriptProperties.TableBodyCounts | admin_academics/assessment/transcript/TranscriptToPDF.php:221-263 | A table body draws exactly one Ln(10) gap, and no image or title. |
| TranscriptProperties.SemestersCounts | admin_academics/assessment/transcript/TranscriptToPDF.php:63-67 | A session with s semesters draws s titles and s gaps, and no image. |
| TranscriptProperties.TranscriptCounts | admin_academics/assessment/transcript/TranscriptToPDF.php:60-68 | A transcript draws one photo per session, and one title and one gap per semester over all sessions. |
| TranscriptProperties.QualityPointOfPrintedUnit | admin_academics/assessment/transcript/TranscriptToPDF.php:238-239 | The quality point is number_format(rounded unit × point, 2), where the rounded unit is the unit rounded half away from zero to one decimal. This holds as long as the printed unit has no thousands separator. |
| TranscriptProperties.RoundedUnitExample | admin_academics/assessment/transcript/TranscriptToPDF.php:238-239 | A unit of 2.45 prints as "2.5", and with point 4 the quality point is "10.00". |
| TranscriptProperties.GroupedUnitExample | admin_academics/assessment/transcript/TranscriptToPDF.php:238-239 | A unit of 1000 prints as "1,000.0", floatval reads that back as 1, and with point 5 the quality point is "5.00". |
| PhpText.RoundHalfAwayIsNearest | admin_academics/assessment/transcript/TranscriptToPDF.php:238 | number_format's rounding gives the nearest multiple of 10^-places. A tie goes away from zero. A value that already fits is kept exactly. |
| PhpText.GroupRemoveCommas | admin_academics/assessment/transcript/TranscriptToPDF.php:238 | The thousands separators are all that grouping adds: removing them gives the digits back. |
| PhpText.FloatValOfFormatFixed | admin_academics/assessment/transcript/TranscriptToPDF.php:239 | floatval of a number printed with fewer than four integer digits gives back exactly the printed value. |
| PhpText.NatToStringValue | admin_academics/assessment/transcript/TranscriptToPDF.php:242 | Reading back the printed sequence number gives the number. |
| PhpText.StrLenBounds | admin_academics/assessment/transcript/TranscriptToPDF.php:241 | strlen counts between one and four bytes per character. It counts exactly one per character exactly when the title is ASCII. |
| PhpText.MulIsProduct | admin_academics/assessment/transcript/TranscriptToPDF.php:239 | The product used for unit × point is the arithmetic product. |

## Left out

- Page setup (`_setUpPage`), fonts, colours, line widths and X offsets are not part of this model. The same goes for the PDF download (`Output`), TCPDF's text wrapping and page breaks. The log records only the drawing calls and their layout arguments.
- StudentProfile::getCurrentForSession is a database query. It becomes the `profiles` map from (registration number, session) to level. A missing row prints as an empty level, as PHP's null does in string interpolation.
- Numbers are exact decimals. The float error of PHP doubles in `floatval(unit) * point` is not modelled, and neither are numeric strings with an exponent.
- A height of `''` in `Cell` and a bare `Ln()` are modelled as height 0 and `LastCellHeight`, which is TCPDF's meaning for them.
- The student photo is a path string. null and '' are both the empty string, and like '0' they are falsy, so they give K_BLANK_IMAGE.
- strlen is modelled as the UTF-8 byte length of the title's characters.
- The PHP built-ins follow PHP 8 semantics. Under PHP 5 and 7 a key such as "1abc" is loosely equal to 1. Under PHP 5 and 7.0-7.1, number_format(-0.04, 1) prints "-0.0". The model gives false and "0.0".
- A course's unit and point are assumed numeric. Under PHP 8 a non-numeric string there makes number_format or `*` throw a TypeError; the model has no such error path.
- Transcript.TranscriptToPdf.DrawCourseRow: the body of the row loop of `_drawTableBody` is a method of its own. The loop itself stays in DrawTableBody.
- Transcript.TranscriptToPdf.DrawSemesters: the inner loop of the constructor is a method of its own. The outer loop stays in the constructor.
- TranscriptProperties.QualityPointOfPrintedUnit: stated only for printed units below 1000. A larger unit is printed with a ',' separator, which floatval stops at, as GroupedUnitExample shows. The model keeps that behaviour as written.
- The code raises no validation errors for malformed records, and the model adds none.
