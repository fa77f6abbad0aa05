/**
 * The server's CSV reader (`parseCSV` in app.js): a character-by-character
 * state machine over the exported spreadsheet text that never fails.
 *
 * `Scan` is the machine as a function on the text still to read; `Parse` adds
 * the final flush.  `ParseCsv` is the loop of the source, proved to compute
 * `Parse`.  The lemmas below say what `Parse` does: escaped quotes, quoted
 * separators, the three record terminators, the final flush, and round trips
 * with a writer of CSV records.
 */
module Csv {
  import opened Wrappers
  import opened JsStrings

  /** The parser's local variables between two characters. */
  datatype Scanner = Scanner(rows: seq<seq<string>>, row: seq<string>, cell: string, inQuotes: bool)

  const Start := Scanner([], [], "", false)

  /** Pushes the pending cell onto the pending row and the row onto `rows`. */
  function EndRecord(st: Scanner): Scanner
  {
    Scanner(st.rows + [st.row + [st.cell]], [], "", st.inQuotes)
  }

  /** Something is waiting to be flushed: a non-empty cell or a non-empty row. */
  predicate Pending(st: Scanner)
  {
    st.cell != "" || |st.row| > 0
  }

  /** The step after the loop: the last row is emitted only when something is pending. */
  function Flush(st: Scanner): seq<seq<string>>
  {
    if Pending(st) then st.rows + [st.row + [st.cell]] else st.rows
  }

  predicate NonEmptyRows(rows: seq<seq<string>>)
  {
    forall k :: 0 <= k < |rows| ==> |rows[k]| > 0
  }

  /** The number of rows a flush of this state would give. */
  function Weight(st: Scanner): nat
  {
    |st.rows| + if Pending(st) then 1 else 0
  }

  /** What one turn of the loop leaves: the text still to read and the new state. */
  datatype Move = Move(rest: string, next: Scanner)

  /** One turn of the loop body of `parseCSV` on the first character of `s`. */
  function Step(s: string, st: Scanner): (m: Move)
    requires s != []
    ensures |m.rest| < |s|
  {
    var next := if |s| > 1 then Some(s[1]) else None;
    if st.inQuotes then
      if s[0] == '"' && next == Some('"') then Move(s[2..], st.(cell := st.cell + "\""))
      else if s[0] == '"' then Move(s[1..], st.(inQuotes := false))
      else Move(s[1..], st.(cell := st.cell + [s[0]]))
    else if s[0] == '"' then Move(s[1..], st.(inQuotes := true))
    else if s[0] == ',' then Move(s[1..], st.(row := st.row + [st.cell], cell := ""))
    else if s[0] == '\r' && next == Some('\n') then Move(s[2..], EndRecord(st))
    else if s[0] == '\n' || s[0] == '\r' then Move(s[1..], EndRecord(st))
    else Move(s[1..], st.(cell := st.cell + [s[0]]))
  }

  /** A step consumes one character, or two for a doubled quote inside quotes or a CRLF outside them. */
  lemma StepAdvance(s: string, st: Scanner)
    requires s != []
    ensures Step(s, st).rest == s[1..] || (|s| >= 2 && Step(s, st).rest == s[2..])
    ensures |s| >= 2 && Step(s, st).rest == s[2..] ==>
              if st.inQuotes then s[..2] == "\"\"" else s[..2] == "\r\n"
  {
  }

  /** Runs the machine over `s` from state `st`: the whole loop. */
  function Scan(s: string, st: Scanner): Scanner
    decreases |s|
  {
    if s == [] then st
    else
      var m := Step(s, st);
      Scan(m.rest, m.next)
  }

  /**
   * Rows are only ever appended, every row has at least one cell, and each
   * character read adds at most one row to what a flush would give.
   */
  lemma {:induction false} ScanGrowth(s: string, st: Scanner)
    ensures |st.rows| <= |Scan(s, st).rows| && Scan(s, st).rows[..|st.rows|] == st.rows
    ensures NonEmptyRows(st.rows) ==> NonEmptyRows(Scan(s, st).rows)
    ensures Weight(Scan(s, st)) <= Weight(st) + |s|
    decreases |s|
  {
    if s != [] {
      var m := Step(s, st);
      ScanGrowth(m.rest, m.next);
      var r := Scan(s, st);
      assert r.rows[..|st.rows|] == r.rows[..|m.next.rows|][..|st.rows|];
    }
  }

  /** `parseCSV(text)`: never fails; at most one row per character, each with at least one cell. */
  function Parse(text: string): (rows: seq<seq<string>>)
    ensures |rows| <= |text|
    ensures forall k :: 0 <= k < |rows| ==> |rows[k]| > 0
  {
    ScanGrowth(text, Start);
    Flush(Scan(text, Start))
  }

  /** The loop of `parseCSV`, with its index that sometimes skips a character. */
  method ParseCsv(csvText: string) returns (rows: seq<seq<string>>)
    ensures rows == Parse(csvText)
  {
    rows := [];
    var row: seq<string> := [];
    var cell := "";
    var inQuotes := false;
    var i := 0;
    while i < |csvText|
      invariant 0 <= i <= |csvText|
      invariant Scan(csvText[i..], Scanner(rows, row, cell, inQuotes)) == Scan(csvText, Start)
      decreases |csvText| - i
    {
      ghost var s := csvText[i..];
      ghost var m := Step(s, Scanner(rows, row, cell, inQuotes));
      assert s[1..] == csvText[i + 1..];
      assert |s| > 1 ==> s[2..] == csvText[i + 2..];
      var ch := csvText[i];
      var nextChar := if i + 1 < |csvText| then Some(csvText[i + 1]) else None;
      if inQuotes {
        if ch == '"' && nextChar == Some('"') {
          cell := cell + "\"";
          i := i + 1;
        } else if ch == '"' {
          inQuotes := false;
        } else {
          cell := cell + [ch];
        }
      } else {
        if ch == '"' {
          inQuotes := true;
        } else if ch == ',' {
          row := row + [cell];
          cell := "";
        } else if ch == '\r' && nextChar == Some('\n') {
          row := row + [cell];
          rows := rows + [row];
          row := [];
          cell := "";
          i := i + 1;
        } else if ch == '\n' || ch == '\r' {
          row := row + [cell];
          rows := rows + [row];
          row := [];
          cell := "";
        } else {
          cell := cell + [ch];
        }
      }
      i := i + 1;
      assert m == Move(csvText[i..], Scanner(rows, row, cell, inQuotes));
    }
    if cell != "" || |row| > 0 {
      row := row + [cell];
      rows := rows + [row];
    }
  }

  // ------------------------------------------------------------ single steps

  /** Outside quotes, an ordinary character is appended to the cell. */
  lemma PlainCharStep(c: char, rest: string, st: Scanner)
    requires !st.inQuotes && c != '"' && c != ',' && c != '\n' && c != '\r'
    ensures Scan([c] + rest, st) == Scan(rest, st.(cell := st.cell + [c]))
  {
    assert ([c] + rest)[1..] == rest;
  }

  /** Outside quotes, a comma ends the cell and starts an empty one. */
  lemma CommaStep(rest: string, st: Scanner)
    requires !st.inQuotes
    ensures Scan([','] + rest, st) == Scan(rest, st.(row := st.row + [st.cell], cell := ""))
  {
    assert ([','] + rest)[1..] == rest;
  }

  /**
   * Inside quotes, any character but `"` is appended to the cell verbatim:
   * a comma, `\n` or `\r` there ends neither the cell nor the row.
   */
  lemma QuotedCharStep(c: char, rest: string, st: Scanner)
    requires st.inQuotes && c != '"'
    ensures Scan([c] + rest, st) == Scan(rest, st.(cell := st.cell + [c]))
  {
    assert ([c] + rest)[1..] == rest;
  }

  /** Inside quotes, `""` appends exactly one `"` and consumes both characters. */
  lemma EscapedPairStep(rest: string, st: Scanner)
    requires st.inQuotes
    ensures Scan("\"\"" + rest, st) == Scan(rest, st.(cell := st.cell + "\""))
  {
    assert ("\"\"" + rest)[2..] == rest;
  }

  /** An unescaped `"` only flips the in-quotes flag. */
  lemma QuoteToggleStep(rest: string, st: Scanner)
    requires !st.inQuotes || rest == [] || rest[0] != '"'
    ensures Scan("\"" + rest, st) == Scan(rest, st.(inQuotes := !st.inQuotes))
  {
    assert ("\"" + rest)[1..] == rest;
    assert |"\"" + rest| > 1 ==> ("\"" + rest)[1] == rest[0];
  }

  predicate IsTerminator(t: string)
  {
    t == "\n" || t == "\r\n" || t == "\r"
  }

  /**
   * Outside quotes, `\r\n`, `\n` and `\r` each end exactly one record; a bare
   * `\r` is one only when no `\n` follows it.
   */
  lemma TerminatorStep(t: string, rest: string, st: Scanner)
    requires !st.inQuotes && IsTerminator(t)
    requires t == "\r" ==> rest == [] || rest[0] != '\n'
    ensures Scan(t + rest, st) == Scan(rest, EndRecord(st))
  {
    assert (t + rest)[|t|..] == rest;
    if t == "\r\n" {
      assert (t + rest)[0] == '\r' && (t + rest)[1] == '\n';
    } else if t == "\r" {
      assert (t + rest)[0] == '\r';
      assert |t + rest| > 1 ==> (t + rest)[1] == rest[0];
    }
  }

  // ------------------------------------------------------------ writing CSV

  /** Cell text that needs no quoting: none of `"`, `,`, `\n`, `\r`. */
  predicate Plain(c: string)
  {
    forall k :: 0 <= k < |c| ==> c[k] != '"' && c[k] != ',' && c[k] != '\n' && c[k] != '\r'
  }

  /** Doubles every `"`. */
  function Escape(c: string): string
  {
    if c == [] then [] else (if c[0] == '"' then "\"\"" else [c[0]]) + Escape(c[1..])
  }

  function Quote(c: string): string
  {
    "\"" + Escape(c) + "\""
  }

  /** `field` is a way of writing the cell value `value`: verbatim if plain, or quoted. */
  predicate Encodes(field: string, value: string)
  {
    (field == value && Plain(value)) || field == Quote(value)
  }

  predicate EncodesRow(fields: seq<string>, values: seq<string>)
  {
    |fields| == |values| > 0 && forall j :: 0 <= j < |values| ==> Encodes(fields[j], values[j])
  }

  predicate EncodesRows(fieldRows: seq<seq<string>>, valueRows: seq<seq<string>>)
  {
    |fieldRows| == |valueRows| && forall i :: 0 <= i < |valueRows| ==> EncodesRow(fieldRows[i], valueRows[i])
  }

  /** Records one after another, each its fields joined by commas and ended by `t`. */
  function Records(rows: seq<seq<string>>, t: string): string
  {
    if rows == [] then "" else Join(rows[0], ',') + t + Records(rows[1..], t)
  }

  lemma {:induction false} RecordsSnoc(rows: seq<seq<string>>, row: seq<string>, t: string)
    ensures Records(rows + [row], t) == Records(rows, t) + Join(row, ',') + t
  {
    if rows == [] {
      assert [] + [row] == [row];
    } else {
      assert (rows + [row])[1..] == rows[1..] + [row];
      RecordsSnoc(rows[1..], row, t);
    }
  }

  lemma {:induction false} PlainScan(v: string, rest: string, st: Scanner)
    requires !st.inQuotes && Plain(v)
    ensures Scan(v + rest, st) == Scan(rest, st.(cell := st.cell + v))
    decreases |v|
  {
    if v == [] {
      assert v + rest == rest;
      assert st.cell + v == st.cell;
    } else {
      assert v + rest == [v[0]] + (v[1..] + rest);
      PlainCharStep(v[0], v[1..] + rest, st);
      assert Plain(v[1..]) by {
        forall k | 0 <= k < |v[1..]| ensures v[1..][k] != '"' && v[1..][k] != ',' && v[1..][k] != '\n' && v[1..][k] != '\r' {
          assert v[1..][k] == v[k + 1];
        }
      }
      PlainScan(v[1..], rest, st.(cell := st.cell + [v[0]]));
      assert st.cell + [v[0]] + v[1..] == st.cell + v;
    }
  }

  /** Escaping works character by character. */
  lemma EscapeHead(v: string, rest: string)
    requires v != []
    ensures Escape(v) + "\"" + rest == (if v[0] == '"' then "\"\"" else [v[0]]) + (Escape(v[1..]) + "\"" + rest)
  {
  }

  lemma AppendHead(cell: string, v: string)
    requires v != []
    ensures cell + [v[0]] + v[1..] == cell + v
  {
    assert [v[0]] + v[1..] == v;
  }

  /** Inside quotes, an escaped value and the closing quote give back the value. */
  lemma {:induction false} QuotedScan(v: string, rest: string, st: Scanner)
    requires st.inQuotes
    requires rest == [] || rest[0] != '"'
    ensures Scan(Escape(v) + "\"" + rest, st) == Scan(rest, st.(cell := st.cell + v, inQuotes := false))
    decreases |v|, 1
  {
    if v == [] {
      assert Escape(v) + "\"" + rest == "\"" + rest;
      QuoteToggleStep(rest, st);
      assert st.cell + v == st.cell;
    } else {
      EscapeHead(v, rest);
      AppendHead(st.cell, v);
      if v[0] == '"' {
        QuotedPairScan(v, rest, st);
      } else {
        QuotedCharScan(v, rest, st);
      }
    }
  }

  lemma {:induction false} QuotedPairScan(v: string, rest: string, st: Scanner)
    requires st.inQuotes && v != [] && v[0] == '"'
    requires rest == [] || rest[0] != '"'
    requires Escape(v) + "\"" + rest == "\"\"" + (Escape(v[1..]) + "\"" + rest)
    requires st.cell + [v[0]] + v[1..] == st.cell + v
    ensures Scan(Escape(v) + "\"" + rest, st) == Scan(rest, st.(cell := st.cell + v, inQuotes := false))
    decreases |v|, 0
  {
    EscapedPairStep(Escape(v[1..]) + "\"" + rest, st);
    QuotedScan(v[1..], rest, st.(cell := st.cell + "\""));
  }

  lemma {:induction false} QuotedCharScan(v: string, rest: string, st: Scanner)
    requires st.inQuotes && v != [] && v[0] != '"'
    requires rest == [] || rest[0] != '"'
    requires Escape(v) + "\"" + rest == [v[0]] + (Escape(v[1..]) + "\"" + rest)
    requires st.cell + [v[0]] + v[1..] == st.cell + v
    ensures Scan(Escape(v) + "\"" + rest, st) == Scan(rest, st.(cell := st.cell + v, inQuotes := false))
    decreases |v|, 0
  {
    QuotedCharStep(v[0], Escape(v[1..]) + "\"" + rest, st);
    QuotedScan(v[1..], rest, st.(cell := st.cell + [v[0]]));
  }

  /** Reading one written cell appends its value to the pending cell. */
  lemma CellScan(field: string, value: string, rest: string, st: Scanner)
    requires !st.inQuotes && Encodes(field, value)
    requires rest == [] || rest[0] != '"'
    ensures Scan(field + rest, st) == Scan(rest, st.(cell := st.cell + value))
  {
    if field == value && Plain(value) {
      PlainScan(value, rest, st);
    } else {
      var s := field + rest;
      assert s == "\"" + (Escape(value) + "\"" + rest);
      QuoteToggleStep(Escape(value) + "\"" + rest, st);
      QuotedScan(value, rest, st.(inQuotes := true));
    }
  }

  lemma EncodesRowTail(fields: seq<string>, values: seq<string>)
    requires EncodesRow(fields, values) && |fields| > 1
    ensures EncodesRow(fields[1..], values[1..])
  {
    forall j | 0 <= j < |values[1..]| ensures Encodes(fields[1..][j], values[1..][j]) {
      assert Encodes(fields[j + 1], values[j + 1]);
    }
  }

  lemma ValuesTail(row: seq<string>, v: seq<string>)
    requires |v| > 1
    ensures v[1..][|v[1..]| - 1] == v[|v| - 1]
    ensures row + [v[0]] + v[1..][..|v[1..]| - 1] == row + v[..|v| - 1]
  {
    assert [v[0]] + v[1..][..|v| - 2] == v[..|v| - 1];
  }

  /** Reading one written record (without its terminator) fills the pending row. */
  lemma {:induction false} RecordScan(fields: seq<string>, values: seq<string>, rest: string, st: Scanner)
    requires !st.inQuotes && st.cell == "" && EncodesRow(fields, values)
    requires rest == [] || rest[0] != '"'
    ensures Scan(Join(fields, ',') + rest, st)
         == Scan(rest, st.(row := st.row + values[..|values| - 1], cell := values[|values| - 1]))
    decreases |fields|, 1
  {
    if |fields| == 1 {
      assert Encodes(fields[0], values[0]);
      CellScan(fields[0], values[0], rest, st);
      assert st.row + values[..0] == st.row;
      assert st.cell + values[0] == values[0];
    } else {
      RecordScanMore(fields, values, rest, st);
    }
  }

  lemma {:induction false} RecordScanMore(fields: seq<string>, values: seq<string>, rest: string, st: Scanner)
    requires !st.inQuotes && st.cell == "" && EncodesRow(fields, values) && |fields| > 1
    requires rest == [] || rest[0] != '"'
    ensures Scan(Join(fields, ',') + rest, st)
         == Scan(rest, st.(row := st.row + values[..|values| - 1], cell := values[|values| - 1]))
    decreases |fields|, 0
  {
    assert Encodes(fields[0], values[0]);
    var tail := Join(fields[1..], ',') + rest;
    assert Join(fields, ',') + rest == fields[0] + ([','] + tail);
    CellScan(fields[0], values[0], [','] + tail, st);
    var st0 := st.(cell := st.cell + values[0]);
    CommaStep(tail, st0);
    var st1 := st.(row := st.row + [values[0]], cell := "");
    FirstCellStored(st, values[0]);
    EncodesRowTail(fields, values);
    RecordScan(fields[1..], values[1..], rest, st1);
    CellsStored(st, values);
  }

  lemma FirstCellStored(st: Scanner, value: string)
    requires st.cell == ""
    ensures var st0 := st.(cell := st.cell + value);
            st0.(row := st0.row + [st0.cell], cell := "") == st.(row := st.row + [value], cell := "")
  {
    assert st.cell + value == value;
  }

  lemma CellsStored(st: Scanner, values: seq<string>)
    requires |values| > 1
    ensures st.(row := st.row + [values[0]] + values[1..][..|values| - 2], cell := values[1..][|values| - 2])
         == st.(row := st.row + values[..|values| - 1], cell := values[|values| - 1])
  {
    ValuesTail(st.row, values);
  }


  /** A written record never starts with a line break. */
  lemma JoinedRowHead(fields: seq<string>, values: seq<string>)
    requires EncodesRow(fields, values)
    ensures Join(fields, ',') == [] || (Join(fields, ',')[0] != '\n' && Join(fields, ',')[0] != '\r')
  {
    assert Encodes(fields[0], values[0]);
    var j := Join(fields, ',');
    if fields[0] != [] {
      assert j[0] == fields[0][0];
      if fields[0] == values[0] && Plain(values[0]) {
        assert fields[0][0] == values[0][0];
      } else {
        assert fields[0][0] == '"';
      }
    } else if |fields| > 1 {
      assert j[0] == ',';
    }
  }

  lemma RecordsHead(fieldRows: seq<seq<string>>, valueRows: seq<seq<string>>, t: string)
    requires EncodesRows(fieldRows, valueRows) && |fieldRows| > 0
    requires t == "\r" || t == "\r\n"
    ensures Records(fieldRows, t) != [] && Records(fieldRows, t)[0] != '\n'
  {
    assert EncodesRow(fieldRows[0], valueRows[0]);
    JoinedRowHead(fieldRows[0], valueRows[0]);
    var j := Join(fieldRows[0], ',');
    assert Records(fieldRows, t) == j + (t + Records(fieldRows[1..], t));
    if j == [] {
      assert Records(fieldRows, t)[0] == t[0];
    } else {
      assert Records(fieldRows, t)[0] == j[0];
    }
  }

  /** Ending the record that holds the values `v` appends them to `rows`. */
  lemma EndFilledRecord(st: Scanner, v: seq<string>)
    requires !st.inQuotes && st.row == [] && st.cell == "" && |v| > 0
    ensures EndRecord(st.(row := st.row + v[..|v| - 1], cell := v[|v| - 1])) == st.(rows := st.rows + [v])
  {
    assert [] + v[..|v| - 1] + [v[|v| - 1]] == v;
  }

  lemma TerminatorHead(t: string, rest: string)
    requires IsTerminator(t)
    ensures (t + rest)[0] != '"'
  {
    assert (t + rest)[0] == t[0];
  }

  /** Reading one written record and its terminator appends the record's values to `rows`. */
  lemma TerminatedRecordScan(fields: seq<string>, values: seq<string>, t: string, rest: string, st: Scanner)
    requires !st.inQuotes && st.row == [] && st.cell == ""
    requires EncodesRow(fields, values) && IsTerminator(t)
    requires t == "\r" ==> rest == [] || rest[0] != '\n'
    ensures Scan(Join(fields, ',') + t + rest, st) == Scan(rest, st.(rows := st.rows + [values]))
  {
    var v := values;
    Associative(Join(fields, ','), t, rest);
    TerminatorHead(t, rest);
    RecordScan(fields, v, t + rest, st);
    var st1 := st.(row := st.row + v[..|v| - 1], cell := v[|v| - 1]);
    TerminatorStep(t, rest, st1);
    EndFilledRecord(st, v);
  }

  lemma RowsAppended(st: Scanner, valueRows: seq<seq<string>>)
    requires valueRows != []
    ensures st.(rows := st.rows + [valueRows[0]]).(rows := st.rows + [valueRows[0]] + valueRows[1..]) == st.(rows := st.rows + valueRows)
  {
    assert st.rows + [valueRows[0]] + valueRows[1..] == st.rows + valueRows;
  }

  lemma RecordsUnfold(fieldRows: seq<seq<string>>, t: string, rest: string)
    requires fieldRows != []
    ensures Records(fieldRows, t) + rest == Join(fieldRows[0], ',') + t + (Records(fieldRows[1..], t) + rest)
  {
  }

  lemma EncodesRowsTail(fieldRows: seq<seq<string>>, valueRows: seq<seq<string>>)
    requires EncodesRows(fieldRows, valueRows) && fieldRows != []
    ensures EncodesRow(fieldRows[0], valueRows[0]) && EncodesRows(fieldRows[1..], valueRows[1..])
  {
    forall i | 0 <= i < |valueRows[1..]| ensures EncodesRow(fieldRows[1..][i], valueRows[1..][i]) {
      assert EncodesRow(fieldRows[i + 1], valueRows[i + 1]);
    }
  }

  /** After a bare `\r`, the next record (or the rest of the text) does not start with `\n`. */
  lemma NextRecordHead(fieldRows: seq<seq<string>>, valueRows: seq<seq<string>>, t: string, rest: string)
    requires EncodesRows(fieldRows, valueRows) && fieldRows != [] && IsTerminator(t)
    requires t == "\r" ==> rest == [] || rest[0] != '\n'
    ensures var next := Records(fieldRows[1..], t) + rest;
            t == "\r" ==> next == [] || next[0] != '\n'
  {
    EncodesRowsTail(fieldRows, valueRows);
    var next := Records(fieldRows[1..], t) + rest;
    if t == "\r" && fieldRows[1..] != [] {
      RecordsHead(fieldRows[1..], valueRows[1..], t);
      assert next[0] == Records(fieldRows[1..], t)[0];
    } else if t == "\r" {
      assert next == rest;
    }
  }

  /** Reading written records appends their values to `rows`. */
  lemma {:induction false} RecordsScan(fieldRows: seq<seq<string>>, valueRows: seq<seq<string>>, t: string, rest: string, st: Scanner)
    requires !st.inQuotes && st.row == [] && st.cell == ""
    requires EncodesRows(fieldRows, valueRows) && IsTerminator(t)
    requires t == "\r" ==> rest == [] || rest[0] != '\n'
    ensures Scan(Records(fieldRows, t) + rest, st) == Scan(rest, st.(rows := st.rows + valueRows))
    decreases |fieldRows|
  {
    if fieldRows == [] {
      assert Records(fieldRows, t) + rest == rest;
      assert st.rows + valueRows == st.rows;
    } else {
      var next := Records(fieldRows[1..], t) + rest;
      RecordsUnfold(fieldRows, t, rest);
      EncodesRowsTail(fieldRows, valueRows);
      NextRecordHead(fieldRows, valueRows, t, rest);
      TerminatedRecordScan(fieldRows[0], valueRows[0], t, next, st);
      var st2 := st.(rows := st.rows + [valueRows[0]]);
      RecordsScan(fieldRows[1..], valueRows[1..], t, rest, st2);
      RowsAppended(st, valueRows);
    }
  }

  /**
   * Round trip: records written with any of the three terminators, each cell
   * either verbatim (when plain) or quoted with its quotes doubled, parse back
   * to exactly those cell values, with no trailing empty row.
   */
  lemma RoundTrip(fieldRows: seq<seq<string>>, valueRows: seq<seq<string>>, t: string)
    requires EncodesRows(fieldRows, valueRows) && IsTerminator(t)
    ensures Parse(Records(fieldRows, t)) == valueRows
  {
    RecordsScan(fieldRows, valueRows, t, "", Start);
    assert Records(fieldRows, t) + "" == Records(fieldRows, t);
  }

  /**
   * Trailing flush: a last record without a terminator is still emitted,
   * unless reading it left nothing pending (a single empty cell, written as
   * nothing or as `""`).
   */
  lemma FinalRecordFlush(fieldRows: seq<seq<string>>, valueRows: seq<seq<string>>,
                         fields: seq<string>, values: seq<string>, t: string)
    requires EncodesRows(fieldRows, valueRows) && EncodesRow(fields, values) && IsTerminator(t)
    ensures Parse(Records(fieldRows, t) + Join(fields, ',')) == if values == [""] then valueRows else valueRows + [values]
  {
    var last := Join(fields, ',');
    JoinedRowHead(fields, values);
    RecordsScan(fieldRows, valueRows, t, last, Start);
    var st := Start.(rows := valueRows);
    assert Start.(rows := Start.rows + valueRows) == st;
    RecordScan(fields, values, [], st);
    assert last + [] == last;
    LastRowFlush(valueRows, values);
  }

  /** Flushing a last row read as `values`: emitted unless it is the single empty cell. */
  lemma LastRowFlush(rows: seq<seq<string>>, v: seq<string>)
    requires |v| > 0
    ensures Flush(Start.(rows := rows).(row := Start.row + v[..|v| - 1], cell := v[|v| - 1]))
         == if v == [""] then rows else rows + [v]
  {
    var st := Start.(rows := rows);
    var fin := st.(row := st.row + v[..|v| - 1], cell := v[|v| - 1]);
    assert fin.row + [fin.cell] == v;
    if v != [""] {
      assert |v| > 1 || v[0] != "";
      assert Pending(fin);
    }
  }

  // ------------------------------------------------------------ reading plain text

  /** Text without `"` or `\r`: every line it holds ends, if at all, in a bare `\n`. */
  predicate Unquoted(text: string)
  {
    forall k :: 0 <= k < |text| ==> text[k] != '"' && text[k] != '\r'
  }

  lemma JoinAppendChar(row: seq<string>, cell: string, c: char)
    ensures Join(row + [cell + [c]], ',') == Join(row + [cell], ',') + [c]
  {
    if row == [] {
      assert row + [cell + [c]] == [cell + [c]];
      assert row + [cell] == [cell];
    } else {
      JoinSnoc(row, cell + [c], ',');
      JoinSnoc(row, cell, ',');
    }
  }

  /** The text after the first character of `Unquoted` text is `Unquoted`. */
  lemma UnquotedTail(s: string)
    requires s != [] && Unquoted(s)
    ensures Unquoted(s[1..]) && s == [s[0]] + s[1..]
  {
    forall k | 0 <= k < |s[1..]| ensures s[1..][k] != '"' && s[1..][k] != '\r' {
      assert s[1..][k] == s[k + 1];
    }
  }

  /** What `ScanUnquoted` states, for a state `st` and the text `s` still to read. */
  predicate LinesRebuilt(s: string, st: Scanner)
  {
    Records(Flush(Scan(s, st)), "\n") == Records(st.rows, "\n") + Join(st.row + [st.cell], ',') + s
  }

  lemma {:induction false} ScanUnquoted(s: string, st: Scanner)
    requires !st.inQuotes && Unquoted(s)
    requires s == [] ==> st.row == [] && st.cell == ""
    requires s != [] ==> s[|s| - 1] == '\n'
    ensures LinesRebuilt(s, st)
    decreases |s|, 1
  {
    if s == [] {
      assert st.row + [st.cell] == [""];
    } else {
      UnquotedTail(s);
      assert s[0] != '"' && s[0] != '\r';
      if s[0] == ',' {
        UnquotedComma(s, st);
      } else if s[0] == '\n' {
        UnquotedNewline(s, st);
      } else {
        UnquotedChar(s, st);
      }
    }
  }

  lemma {:induction false} UnquotedComma(s: string, st: Scanner)
    requires !st.inQuotes && Unquoted(s) && s != [] && s[0] == ',' && s[|s| - 1] == '\n'
    ensures LinesRebuilt(s, st)
    decreases |s|, 0
  {
    UnquotedTail(s);
    var rest := s[1..];
    var st1 := st.(row := st.row + [st.cell], cell := "");
    CommaStep(rest, st);
    ScanUnquoted(rest, st1);
    JoinSnoc(st.row + [st.cell], "", ',');
    var before := Records(st.rows, "\n");
    var j := Join(st.row + [st.cell], ',');
    assert Join(st1.row + [st1.cell], ',') == j + [','];
    assert before + (j + [',']) + rest == before + j + s;
  }

  lemma NewlineRebuilt(before: string, j: string, s: string)
    requires s != [] && s[0] == '\n'
    ensures before + j + "\n" + Join([""], ',') + s[1..] == before + j + s
  {
    assert Join([""], ',') == "";
    assert "\n" + s[1..] == s;
  }

  lemma {:induction false} UnquotedNewline(s: string, st: Scanner)
    requires !st.inQuotes && Unquoted(s) && s != [] && s[0] == '\n'
    requires s[1..] != [] ==> s[|s| - 1] == '\n'
    ensures LinesRebuilt(s, st)
    decreases |s|, 0
  {
    UnquotedTail(s);
    var rest := s[1..];
    var st1 := EndRecord(st);
    TerminatorStep("\n", rest, st);
    ScanUnquoted(rest, st1);
    RecordsSnoc(st.rows, st.row + [st.cell], "\n");
    assert st1.row + [st1.cell] == [""];
    NewlineRebuilt(Records(st.rows, "\n"), Join(st.row + [st.cell], ','), s);
  }

  lemma {:induction false} UnquotedChar(s: string, st: Scanner)
    requires !st.inQuotes && Unquoted(s) && s != [] && s[0] != ',' && s[0] != '\n' && s[|s| - 1] == '\n'
    ensures LinesRebuilt(s, st)
    decreases |s|, 0
  {
    UnquotedTail(s);
    var rest := s[1..];
    var c := s[0];
    var st1 := st.(cell := st.cell + [c]);
    PlainCharStep(c, rest, st);
    ScanUnquoted(rest, st1);
    JoinAppendChar(st.row, st.cell, c);
    var before := Records(st.rows, "\n");
    var j := Join(st.row + [st.cell], ',');
    assert before + (j + [c]) + rest == before + j + s;
  }

  /**
   * Text without `"` or `\r` whose lines all end in `\n`: re-joining each parsed row
   * with commas and ending it with `\n` reproduces the text.
   */
  lemma TerminatedLines(text: string)
    requires Unquoted(text)
    requires text == [] || text[|text| - 1] == '\n'
    ensures Records(Parse(text), "\n") == text
  {
    ScanUnquoted(text, Start);
    assert Start.row + [Start.cell] == [""];
  }

  predicate PlainRow(row: seq<string>)
  {
    forall j :: 0 <= j < |row| ==> Plain(row[j])
  }

  predicate PlainRows(rows: seq<seq<string>>)
  {
    forall i :: 0 <= i < |rows| ==> PlainRow(rows[i])
  }

  /** Outside quotes, with every cell read so far free of `"`, `,`, `\n` and `\r`. */
  predicate PlainState(st: Scanner)
  {
    !st.inQuotes && PlainRows(st.rows) && PlainRow(st.row) && Plain(st.cell)
  }

  lemma PlainExtend(cell: string, c: char)
    requires Plain(cell) && c != '"' && c != ',' && c != '\n' && c != '\r'
    ensures Plain(cell + [c])
  {
    forall k | 0 <= k < |cell + [c]|
      ensures (cell + [c])[k] != '"' && (cell + [c])[k] != ',' && (cell + [c])[k] != '\n' && (cell + [c])[k] != '\r'
    {
      if k < |cell| { assert (cell + [c])[k] == cell[k]; }
    }
  }

  /** Text without `"` or `\r` keeps the machine outside quotes and every cell plain. */
  lemma {:induction false} ScanPlain(s: string, st: Scanner)
    requires Unquoted(s) && PlainState(st)
    ensures PlainState(Scan(s, st))
    decreases |s|
  {
    if s != [] {
      UnquotedTail(s);
      var c := s[0];
      var m := Step(s, st);
      assert m.rest == s[1..];
      if c == ',' {
        assert m.next == st.(row := st.row + [st.cell], cell := "");
      } else if c == '\n' {
        assert m.next == EndRecord(st);
      } else {
        assert m.next == st.(cell := st.cell + [c]);
        PlainExtend(st.cell, c);
      }
      assert PlainState(m.next);
      ScanPlain(m.rest, m.next);
    }
  }

  lemma FlushPlain(st: Scanner)
    requires PlainState(st)
    ensures PlainRows(Flush(st))
  {
    if Pending(st) {
      assert PlainRow(st.row + [st.cell]);
    }
  }

  /** Text without `"` or `\r` read in two pieces: the second starts from where the first left the machine. */
  lemma {:induction false} ScanSplit(a: string, b: string, st: Scanner)
    requires Unquoted(a) && !st.inQuotes
    ensures !Scan(a, st).inQuotes
    ensures Scan(a + b, st) == Scan(b, Scan(a, st))
    decreases |a|
  {
    if a == [] {
      assert a + b == b;
    } else {
      UnquotedTail(a);
      assert (a + b)[0] == a[0] && (a + b)[1..] == a[1..] + b;
      var m := Step(a, st);
      assert m.rest == a[1..];
      assert Step(a + b, st) == Move(a[1..] + b, m.next);
      ScanSplit(a[1..], b, m.next);
    }
  }

  lemma UnquotedSnoc(a: string, c: char)
    requires Unquoted(a) && c != '"' && c != '\r'
    ensures Unquoted(a + [c])
  {
    forall k | 0 <= k < |a + [c]| ensures (a + [c])[k] != '"' && (a + [c])[k] != '\r' {
      if k < |a| { assert (a + [c])[k] == a[k]; }
    }
  }

  /** A last line without `\n` leaves a cell or a row pending at the end of the input. */
  lemma UnterminatedPending(text: string)
    requires Unquoted(text) && text != [] && text[|text| - 1] != '\n'
    ensures !Scan(text, Start).inQuotes && Pending(Scan(text, Start))
  {
    var a, c := text[..|text| - 1], text[|text| - 1];
    assert text == a + [c];
    assert Unquoted(a) by {
      forall k | 0 <= k < |a| ensures a[k] != '"' && a[k] != '\r' { assert a[k] == text[k]; }
    }
    ScanSplit(a, [c], Start);
    var st := Scan(a, Start);
    assert Scan([c], st) == Step([c], st).next;
  }

  /** Ending the last line with `\n` changes nothing in what is parsed. */
  lemma NewlineAppended(text: string)
    requires Unquoted(text) && text != [] && text[|text| - 1] != '\n'
    ensures Unquoted(text + "\n")
    ensures Parse(text + "\n") == Parse(text)
  {
    UnquotedSnoc(text, '\n');
    UnterminatedPending(text);
    ScanSplit(text, "\n", Start);
    var st := Scan(text, Start);
    assert Scan("\n", st) == EndRecord(st);
  }

  /**
   * Text without `"` or `\r`: re-joining each parsed row with commas and ending it
   * with `\n` gives back the text, with a `\n` added when its last line had
   * none, and no parsed cell holds `"`, `,`, `\n` or `\r`.
   */
  lemma LinesRoundTrip(text: string)
    requires Unquoted(text)
    ensures Records(Parse(text), "\n") == if text == [] || text[|text| - 1] == '\n' then text else text + "\n"
    ensures PlainRows(Parse(text))
  {
    ScanPlain(text, Start);
    FlushPlain(Scan(text, Start));
    if text == [] || text[|text| - 1] == '\n' {
      TerminatedLines(text);
    } else {
      NewlineAppended(text);
      TerminatedLines(text + "\n");
    }
  }

  /** In text without `"` or `\r` every parsed row has one cell more than its line has commas. */
  lemma LineCommas(text: string)
    requires Unquoted(text)
    ensures forall i :: 0 <= i < |Parse(text)| ==> |Parse(text)[i]| == CountOf(Join(Parse(text)[i], ','), ',') + 1
  {
    LinesRoundTrip(text);
    var rows := Parse(text);
    forall i | 0 <= i < |rows| ensures |rows[i]| == CountOf(Join(rows[i], ','), ',') + 1 {
      assert PlainRow(rows[i]);
      forall j | 0 <= j < |rows[i]| ensures ',' !in rows[i][j] {
        assert Plain(rows[i][j]);
      }
      JoinSeparators(rows[i], ',');
    }
  }

  // ------------------------------------------------------------ quotes

  /** Inside quotes, text without `"` goes into the cell verbatim, separators included. */
  lemma {:induction false} OpenQuoteScan(s: string, st: Scanner)
    requires st.inQuotes && '"' !in s
    ensures Scan(s, st) == st.(cell := st.cell + s)
    decreases |s|
  {
    if s == [] {
      assert st.cell + s == st.cell;
    } else {
      assert s[0] != '"' by { assert s[0] in s; }
      assert '"' !in s[1..] by {
        forall k | 0 <= k < |s[1..]| ensures s[1..][k] != '"' { assert s[1..][k] == s[k + 1]; }
      }
      assert s == [s[0]] + s[1..];
      QuotedCharStep(s[0], s[1..], st);
      OpenQuoteScan(s[1..], st.(cell := st.cell + [s[0]]));
      assert st.cell + [s[0]] + s[1..] == st.cell + s;
    }
  }

  /** An unterminated quote consumes everything up to the end of the input into one cell. */
  lemma UnterminatedQuote(text: string)
    requires '"' !in text
    ensures Parse("\"" + text) == if text == [] then [] else [[text]]
  {
    QuoteToggleStep(text, Start);
    OpenQuoteScan(text, Start.(inQuotes := true));
    var fin := Scanner([], [], text, true);
    assert "" + text == text;
    assert Scan("\"" + text, Start) == fin;
    assert Flush(fin) == (if text == [] then [] else [[text]]) by {
      var empty: seq<string> := [];
      assert empty + [text] == [text];
    }
  }

  predicate NoEscapedPair(s: string)
  {
    forall k :: 0 <= k < |s| - 1 ==> !(s[k] == '"' && s[k + 1] == '"')
  }

  predicate QuoteFreeRow(row: seq<string>)
  {
    forall j :: 0 <= j < |row| ==> '"' !in row[j]
  }

  predicate QuoteFreeRows(rows: seq<seq<string>>)
  {
    forall i :: 0 <= i < |rows| ==> QuoteFreeRow(rows[i])
  }

  predicate QuoteFree(st: Scanner)
  {
    QuoteFreeRows(st.rows) && QuoteFreeRow(st.row) && '"' !in st.cell
  }

  lemma {:induction false} ScanQuoteFree(s: string, st: Scanner)
    requires NoEscapedPair(s) && QuoteFree(st)
    ensures QuoteFree(Scan(s, st))
    decreases |s|
  {
    if s != [] {
      var m := Step(s, st);
      assert |s| > 1 ==> !(s[0] == '"' && s[1] == '"');
      assert QuoteFree(m.next);
      assert m.rest == s[|s| - |m.rest|..];
      assert NoEscapedPair(m.rest) by {
        var d := |s| - |m.rest|;
        forall k | 0 <= k < |m.rest| - 1 ensures !(m.rest[k] == '"' && m.rest[k + 1] == '"') {
          assert m.rest[k] == s[k + d] && m.rest[k + 1] == s[k + d + 1];
        }
      }
      ScanQuoteFree(m.rest, m.next);
    }
  }

  /** Without an escaped pair `""` in the input, no parsed cell contains `"`. */
  lemma QuotesOnlyFromPairs(text: string)
    requires NoEscapedPair(text)
    ensures QuoteFreeRows(Parse(text))
  {
    ScanQuoteFree(text, Start);
  }

  // ------------------------------------------------------------ examples

  lemma QuotedCommaExample()
    ensures Parse("a,\"c,d\"\n") == [["a", "c,d"]]
  {
    assert Escape("c,d") == "c,d";
    assert Encodes("\"c,d\"", "c,d");
    assert Plain("a");
    assert EncodesRow(["a", "\"c,d\""], ["a", "c,d"]);
    assert Records([["a", "\"c,d\""]], "\n") == "a,\"c,d\"\n";
    RoundTrip([["a", "\"c,d\""]], [["a", "c,d"]], "\n");
  }

  lemma EscapedQuoteExample()
    ensures Parse("\"b\"\"c\"\n") == [["b\"c"]]
  {
    assert Escape("c") == "c";
    assert Escape("\"c") == "\"\"c";
    assert Escape("b\"c") == "b\"\"c";
    assert Encodes("\"b\"\"c\"", "b\"c");
    assert EncodesRow(["\"b\"\"c\""], ["b\"c"]);
    assert Records([["\"b\"\"c\""]], "\n") == "\"b\"\"c\"\n";
    RoundTrip([["\"b\"\"c\""]], [["b\"c"]], "\n");
  }

  lemma CrLfExample()
    ensures Parse("a,b\r\nc,d\r\n") == [["a", "b"], ["c", "d"]]
  {
    assert Plain("a") && Plain("b") && Plain("c") && Plain("d");
    assert EncodesRows([["a", "b"], ["c", "d"]], [["a", "b"], ["c", "d"]]);
    assert Records([["a", "b"], ["c", "d"]], "\r\n") == "a,b\r\nc,d\r\n";
    RoundTrip([["a", "b"], ["c", "d"]], [["a", "b"], ["c", "d"]], "\r\n");
  }

  lemma EmptyInput()
    ensures Parse("") == []
  {
  }
}
