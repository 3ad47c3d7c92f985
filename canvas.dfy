/** The TCPDF drawing calls the transcript issues, recorded as an append-only
    log of commands. Fonts, colours, line widths, the cursor's X position,
    text wrapping, pagination and the PDF bytes themselves belong to the
    library and are not recorded. */
module Canvas {

  /** TCPDF's border argument: 1 draws the whole frame; a string names the
      sides to draw ('L', 'T', 'R', 'B'); 0 or '' draws none. */
  datatype Border = Frame | Sides(edges: string)

  const NoBorder: Border := Sides("")

  /** TCPDF's align argument; AlignDefault is the library default ''. */
  datatype Align = AlignDefault | Left | Center | Right

  /** The height Ln() moves down by: the last cell's height when called without an argument. */
  datatype LineHeight = LastCellHeight | Height(h: nat)

  /** One recorded call. `ln` is TCPDF's position after the cell:
      0 to the right, 1 to the start of the next line, 2 below. */
  datatype Command =
    | CellOp(w: nat, h: nat, txt: string, border: Border, align: Align, fill: bool, ln: nat)
    | MultiCellOp(w: nat, h: nat, txt: string, border: Border, align: Align, fill: bool, ln: nat)
    | LnOp(lh: LineHeight)
    | ImageOp(file: string, iw: nat, ih: nat)

  predicate IsTextCell(c: Command)
  {
    c.CellOp? || c.MultiCellOp?
  }

  /** How many commands of the log satisfy p. */
  function CountWhere(log: seq<Command>, p: Command -> bool): (n: nat)
    ensures n <= |log|
  {
    if log == [] then 0 else CountWhere(log[..|log| - 1], p) + (if p(log[|log| - 1]) then 1 else 0)
  }

  /** Counting distributes over appending logs. */
  lemma {:induction false} CountWhereAppend(a: seq<Command>, b: seq<Command>, p: Command -> bool)
    ensures CountWhere(a + b, p) == CountWhere(a, p) + CountWhere(b, p)
  {
    if b == [] {
      assert a + b == a;
    } else {
      assert (a + b)[..|a + b| - 1] == a + b[..|b| - 1];
      assert (a + b)[|a + b| - 1] == b[|b| - 1];
      CountWhereAppend(a, b[..|b| - 1], p);
    }
  }

  /** A log none of whose commands satisfies p counts zero. */
  lemma {:induction false} CountWhereNone(log: seq<Command>, p: Command -> bool)
    requires forall i :: 0 <= i < |log| ==> !p(log[i])
    ensures CountWhere(log, p) == 0
  {
    if log != [] {
      CountWhereNone(log[..|log| - 1], p);
    }
  }

  /** A log in which exactly the command at index i satisfies p counts one. */
  lemma CountWhereOne(log: seq<Command>, i: nat, p: Command -> bool)
    requires i < |log| && p(log[i])
    requires forall j :: 0 <= j < |log| && j != i ==> !p(log[j])
    ensures CountWhere(log, p) == 1
  {
    var before, after := log[..i], log[i + 1..];
    assert log == before + [log[i]] + after;
    CountWhereAppend(before + [log[i]], after, p);
    CountWhereAppend(before, [log[i]], p);
    CountWhereNone(before, p);
    CountWhereNone(after, p);
    assert [log[i]][..0] == [];
  }

  /** A slice within the first of two appended logs is a slice of that log. */
  lemma SliceOfPrefix(a: seq<Command>, b: seq<Command>, i: nat, j: nat)
    requires i <= j <= |a|
    ensures (a + b)[i..j] == a[i..j]
  {
  }

  /** The commands of a slice, index by index. */
  lemma SliceIndices(a: seq<Command>, i: nat, j: nat, s: seq<Command>)
    requires i <= j <= |a| && a[i..j] == s
    ensures forall m :: i <= m < j ==> a[m] == s[m - i]
  {
    forall m | i <= m < j
      ensures a[m] == s[m - i]
    {
      assert a[i..j][m - i] == a[m];
    }
  }

  /** Appending logs is associative. */
  lemma AppendAssoc(a: seq<Command>, b: seq<Command>, c: seq<Command>)
    ensures (a + b) + c == a + (b + c)
  {
  }

  /** Six blocks appended command by command, the first and last of two commands each. */
  lemma BlocksAppended(log: seq<Command>, before: seq<Command>, head: seq<Command>, r1: seq<Command>, r2: seq<Command>,
                       r3: seq<Command>, r4: seq<Command>, tail: seq<Command>)
    requires |head| == 2 && |tail| == 2
    requires log == before + [head[0]] + [head[1]] + r1 + r2 + r3 + r4 + [tail[0]] + [tail[1]]
    ensures log == before + (head + r1 + r2 + r3 + r4 + tail)
  {
    assert head == [head[0]] + [head[1]] && tail == [tail[0]] + [tail[1]];
  }

  /** Seven commands appended one at a time form the seven-command block `row`. */
  lemma SevenAppended(before: seq<Command>, row: seq<Command>, log: seq<Command>)
    requires |row| == 7
    requires log == before + [row[0]] + [row[1]] + [row[2]] + [row[3]] + [row[4]] + [row[5]] + [row[6]]
    ensures log == before + row
  {
    assert row == [row[0]] + [row[1]] + [row[2]] + [row[3]] + [row[4]] + [row[5]] + [row[6]];
  }
}
