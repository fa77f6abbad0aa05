/**
 * The weekly schedule built from the parsed spreadsheet (the callback in
 * `getScheduleData`, app.js): the sheet repeats three columns per weekday
 * (time, title, description), Monday first, and its first two rows are a
 * note and the day names.
 */
module Schedule {
  import opened Wrappers
  import opened JsStrings

  /**
   * One entry of a day.  A field is `None` when the row had no such column:
   * the source stores `undefined` there, and the JSON copy drops the key.
   */
  datatype Show = Show(time: Option<string>, title: Option<string>, description: Option<string>)

  /** `{emoji, shows}` stored under a weekday key. */
  datatype Day = Day(emoji: string, shows: seq<Show>)

  /** The fixed day list of the server, in spreadsheet column order. */
  const Days: seq<string> := ["monday", "tuesday", "wednesday", "thursday", "friday", "saturday", "sunday"]

  /** No day name appears twice. */
  lemma DaysDistinct()
    ensures forall i, j :: 0 <= i < j < |Days| ==> Days[i] != Days[j]
  {
  }

  lemma NamesDiffer(i: nat, j: nat)
    requires i < j < |Days|
    ensures Days[i] != Days[j]
  {
    DaysDistinct();
  }

  function Min(a: int, b: int): int
  {
    if a < b then a else b
  }

  /** `row.slice(start, end)` for non-negative bounds. */
  function Slice(row: seq<string>, start: nat, end: nat): (r: seq<string>)
    ensures |r| == if start < end && start < |row| then Min(end, |row|) - start else 0
    ensures forall k :: 0 <= k < |r| ==> r[k] == row[start + k]
  {
    var e := Min(end, |row|);
    var b := Min(start, e);
    row[b..e]
  }

  /** `xs[k]`, which is `undefined` past the end. */
  function At(xs: seq<string>, k: nat): Option<string>
  {
    if k < |xs| then Some(xs[k]) else None
  }

  /** `{time: show[0], title: show[1], description: show[2]}` with `show = row.slice(3i, 3i + 3)`. */
  function ShowOf(row: seq<string>, i: nat): (s: Show)
    ensures s == Show(At(row, 3 * i), At(row, 3 * i + 1), At(row, 3 * i + 2))
  {
    var show := Slice(row, 3 * i, 3 * i + 3);
    Show(At(show, 0), At(show, 1), At(show, 2))
  }

  /** `show[0] || show[1] || show[2]` */
  predicate HasContent(s: Show): (b: bool)
    ensures !b <==> (s.time == None || s.time == Some("")) && (s.title == None || s.title == Some(""))
                    && (s.description == None || s.description == Some(""))
  {
    Truthy(s.time) || Truthy(s.title) || Truthy(s.description)
  }

  /** The entries day `i` collects from rows `2 .. n-1`, in row order. */
  function ShowsUpTo(csv: seq<seq<string>>, i: nat, n: nat): (shows: seq<Show>)
    requires n <= |csv|
    ensures |shows| <= if n < 2 then 0 else n - 2
    ensures forall j :: 0 <= j < |shows| ==> HasContent(shows[j])
  {
    if n <= 2 then []
    else
      var show := ShowOf(csv[n - 1], i);
      ShowsUpTo(csv, i, n - 1) + if HasContent(show) then [show] else []
  }

  /** The shows of day `i`: every row from index 2 on whose three columns for that day hold some text. */
  function ShowsFor(csv: seq<seq<string>>, i: nat): seq<Show>
  {
    ShowsUpTo(csv, i, |csv|)
  }

  lemma {:induction false} ShowsUpToPrefix(csv: seq<seq<string>>, more: seq<seq<string>>, i: nat, n: nat)
    requires n <= |csv|
    ensures ShowsUpTo(csv + more, i, n) == ShowsUpTo(csv, i, n)
  {
    if n > 2 {
      assert (csv + more)[n - 1] == csv[n - 1];
      ShowsUpToPrefix(csv, more, i, n - 1);
    }
  }

  /** A row appended after the two header rows adds its entry, if it has content, at the end. */
  lemma AppendRow(csv: seq<seq<string>>, row: seq<string>, i: nat)
    requires |csv| >= 2
    ensures ShowsFor(csv + [row], i)
         == ShowsFor(csv, i) + if HasContent(ShowOf(row, i)) then [ShowOf(row, i)] else []
  {
    ShowsUpToPrefix(csv, [row], i, |csv|);
    assert (csv + [row])[|csv|] == row;
  }

  /** Rows 0 and 1 never contribute: only the rows from index 2 on matter. */
  lemma {:induction false} HeaderRowsIgnored(a: seq<seq<string>>, b: seq<seq<string>>, i: nat, n: nat)
    requires n <= |a| && n <= |b|
    requires forall k :: 2 <= k < n ==> a[k] == b[k]
    ensures ShowsUpTo(a, i, n) == ShowsUpTo(b, i, n)
  {
    if n > 2 {
      HeaderRowsIgnored(a, b, i, n - 1);
    }
  }

  /** Every entry comes from a data row (index 2 or more) and has content. */
  lemma {:induction false} ShowsComeFromDataRows(csv: seq<seq<string>>, i: nat, n: nat)
    requires n <= |csv|
    ensures forall j :: 0 <= j < |ShowsUpTo(csv, i, n)| ==>
              exists k :: 2 <= k < n && ShowsUpTo(csv, i, n)[j] == ShowOf(csv[k], i)
  {
    if n > 2 {
      ShowsComeFromDataRows(csv, i, n - 1);
      var before := ShowsUpTo(csv, i, n - 1);
      var all := ShowsUpTo(csv, i, n);
      assert all == before + if HasContent(ShowOf(csv[n - 1], i)) then [ShowOf(csv[n - 1], i)] else [];
      forall j | 0 <= j < |all| ensures exists k :: 2 <= k < n && all[j] == ShowOf(csv[k], i) {
        if j < |before| {
          assert all[j] == before[j];
          var k :| 2 <= k < n - 1 && before[j] == ShowOf(csv[k], i);
          assert 2 <= k < n && all[j] == ShowOf(csv[k], i);
        } else {
          var show := ShowOf(csv[n - 1], i);
          assert all == before + [show];
          assert all[j] == ShowOf(csv[n - 1], i);
          assert 2 <= n - 1 < n;
        }
      }
      assert all == ShowsUpTo(csv, i, n);
    } else {
      assert ShowsUpTo(csv, i, n) == [];
    }
  }

  /** Every data row whose columns for day `i` hold some text gives an entry. */
  lemma {:induction false} ContentRowsIncluded(csv: seq<seq<string>>, i: nat, n: nat, k: nat)
    requires n <= |csv| && 2 <= k < n
    requires HasContent(ShowOf(csv[k], i))
    ensures ShowOf(csv[k], i) in ShowsUpTo(csv, i, n)
  {
    if k < n - 1 {
      ContentRowsIncluded(csv, i, n - 1, k);
    } else {
      var all := ShowsUpTo(csv, i, n);
      assert all[|all| - 1] == ShowOf(csv[k], i);
    }
  }

  /**
   * The schedule map after the first `n` turns of the loop over `Days`: turn
   * `i` stores `{emoji: "", shows}` under `Days[i]` and touches nothing else.
   */
  function WriteDays(m: map<string, Day>, csv: seq<seq<string>>, n: nat): (r: map<string, Day>)
    requires n <= |Days|
    ensures r.Keys == m.Keys + set k | k in Days[..n]
  {
    if n == 0 then m
    else
      var r := WriteDays(m, csv, n - 1)[Days[n - 1] := Day("", ShowsFor(csv, n - 1))];
      assert Days[..n] == Days[..n - 1] + [Days[n - 1]];
      r
  }

  /** After the whole loop every weekday is present, with an empty emoji and its own shows. */
  lemma {:induction false} WritesEveryDay(m: map<string, Day>, csv: seq<seq<string>>, n: nat, i: nat)
    requires i < n <= |Days|
    ensures Days[i] in WriteDays(m, csv, n)
    ensures WriteDays(m, csv, n)[Days[i]] == Day("", ShowsFor(csv, i))
  {
    if i < n - 1 {
      NamesDiffer(i, n - 1);
      WritesEveryDay(m, csv, n - 1, i);
    }
  }

  /** Keys other than the day names, present before or not, are left as they were. */
  lemma {:induction false} KeepsOtherKeys(m: map<string, Day>, csv: seq<seq<string>>, n: nat, key: string)
    requires n <= |Days| && key !in Days
    ensures key in WriteDays(m, csv, n) <==> key in m
    ensures key in m ==> WriteDays(m, csv, n)[key] == m[key]
  {
    if n > 0 {
      KeepsOtherKeys(m, csv, n - 1, key);
      assert key != Days[n - 1];
    }
  }

  /** A sheet with only its two header rows (or fewer) gives every day an empty list. */
  lemma NoDataRows(csv: seq<seq<string>>, i: nat)
    requires |csv| <= 2
    ensures ShowsFor(csv, i) == []
  {
  }

  /** The reshaping example: Monday takes columns 0-2 of the data row, Tuesday columns 3-5. */
  lemma ReshapeExample(note: seq<string>, names: seq<string>)
    ensures ShowsFor([note, names, ["09:00", "Show A", "Desc A", "10:00", "Show B", "Desc B"]], 0)
         == [Show(Some("09:00"), Some("Show A"), Some("Desc A"))]
    ensures ShowsFor([note, names, ["09:00", "Show A", "Desc A", "10:00", "Show B", "Desc B"]], 1)
         == [Show(Some("10:00"), Some("Show B"), Some("Desc B"))]
  {
    var row := ["09:00", "Show A", "Desc A", "10:00", "Show B", "Desc B"];
    assert Slice(row, 0, 3) == ["09:00", "Show A", "Desc A"];
    assert Slice(row, 3, 6) == ["10:00", "Show B", "Desc B"];
  }
}
