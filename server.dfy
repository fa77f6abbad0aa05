/**
 * The server's schedule store and the page it serves (app.js): the
 * `scheduleData` object, refreshed from the fetched spreadsheet text, and
 * the `/api/show-schedule` handler that renders it into the page template.
 */
module Server {
  import opened Wrappers
  import opened JsStrings
  import opened Schedule
  import Csv
  import ScheduleHtml

  predicate Distinct(keys: seq<string>)
  {
    forall i, j :: 0 <= i < j < |keys| ==> keys[i] != keys[j]
  }

  /**
   * The key order of an object after assigning the keys of `added` in turn:
   * a key seen before keeps its place, a new one goes to the end.
   */
  function AddKeys(keys: seq<string>, added: seq<string>): (r: seq<string>)
    ensures |keys| <= |r| && r[..|keys|] == keys
    ensures forall k :: k in r <==> k in keys || k in added
    ensures Distinct(keys) ==> Distinct(r)
  {
    if added == [] then keys
    else
      var before := AddKeys(keys, added[..|added| - 1]);
      var k := added[|added| - 1];
      assert forall x :: x in added <==> x in added[..|added| - 1] || x == k;
      var r := if k in before then before else before + [k];
      assert r[..|before|] == before;
      r
  }

  lemma AddKeysLast(keys: seq<string>, added: seq<string>)
    requires added != []
    ensures AddKeys(keys, added)
         == var before := AddKeys(keys, added[..|added| - 1]);
            if added[|added| - 1] in before then before else before + [added[|added| - 1]]
  {
  }

  lemma LastSplit(keys: seq<string>, added: seq<string>)
    requires added != []
    ensures keys + added == (keys + added[..|added| - 1]) + [added[|added| - 1]]
  {
    assert added == added[..|added| - 1] + [added[|added| - 1]];
  }

  lemma DistinctLast(added: seq<string>)
    requires Distinct(added) && added != []
    ensures Distinct(added[..|added| - 1])
    ensures added[|added| - 1] !in added[..|added| - 1]
  {
    var init := added[..|added| - 1];
    forall j | 0 <= j < |init| ensures init[j] != added[|added| - 1] {
      assert init[j] == added[j];
    }
  }

  /** Keys that are all new and distinct are laid out in the order they were assigned. */
  lemma {:induction false} AddNewKeys(keys: seq<string>, added: seq<string>)
    requires Distinct(added)
    requires forall k :: k in added ==> k !in keys
    ensures AddKeys(keys, added) == keys + added
  {
    if added != [] {
      var init := added[..|added| - 1];
      var k := added[|added| - 1];
      DistinctLast(added);
      assert forall x :: x in init ==> x in added;
      AddNewKeys(keys, init);
      assert k in added;
      assert k !in keys + init;
      AddKeysLast(keys, added);
      LastSplit(keys, added);
    }
  }

  /** Assigning keys that are all present already leaves the key order alone. */
  lemma {:induction false} AddPresentKeys(keys: seq<string>, added: seq<string>)
    requires forall k :: k in added ==> k in keys
    ensures AddKeys(keys, added) == keys
  {
    if added != [] {
      assert forall x :: x in added[..|added| - 1] ==> x in added;
      AddPresentKeys(keys, added[..|added| - 1]);
      assert added[|added| - 1] in added;
    }
  }

  /** One store refresh: the parsed sheet reshaped into the seven day entries. */
  lemma DaysAfterFirstRefresh()
    ensures AddKeys([], Days) == Days
  {
    DaysDistinct();
    AddNewKeys([], Days);
  }

  /** The inner loop of the refresh: the entries of day `i`, scanning the rows from index 2 on. */
  method CollectShows(csv: seq<seq<string>>, i: nat) returns (showsList: seq<Show>)
    ensures showsList == ShowsFor(csv, i)
  {
    showsList := [];
    var lineIndex := 2;
    while lineIndex < |csv|
      invariant 2 <= lineIndex
      invariant lineIndex <= |csv| || lineIndex == 2
      invariant showsList == ShowsUpTo(csv, i, Min(lineIndex, |csv|))
    {
      var show := Slice(csv[lineIndex], 3 * i, 3 * i + 3);
      if Truthy(At(show, 0)) || Truthy(At(show, 1)) || Truthy(At(show, 2)) {
        showsList := showsList + [Show(At(show, 0), At(show, 1), At(show, 2))];
      }
      lineIndex := lineIndex + 1;
    }
  }

  /** A response of the handler. */
  datatype Response = Response(status: nat, body: string)

  /** Walking one more weekday adds it at the end of the keys unless it is already among them. */
  lemma AddKeysStep(keys: seq<string>, i: nat)
    requires i < |Days|
    ensures AddKeys(keys, Days[..i + 1])
         == if Days[i] in AddKeys(keys, Days[..i]) then AddKeys(keys, Days[..i]) else AddKeys(keys, Days[..i]) + [Days[i]]
  {
    assert Days[..i + 1][..i] == Days[..i];
  }

  /** The loop of `generateScheduleHTML`, over the keys in order, appending one card per key. */
  method RenderCards(keys: seq<string>, entries: map<string, Day>) returns (html: string)
    requires ScheduleHtml.Covers(keys, entries)
    ensures html == ScheduleHtml.Render(keys, entries)
  {
    ScheduleHtml.PrefixCovers(keys, entries, 0);
    html := "";
    var i := 0;
    while i < |keys|
      invariant 0 <= i <= |keys|
      invariant html == ScheduleHtml.Render(keys[..i], entries)
    {
      var day := keys[i];
      ScheduleHtml.RenderPrefix(keys, entries, i);
      html := html + ScheduleHtml.DayCard(day, entries[day]);
      i := i + 1;
    }
    assert keys[..i] == keys;
  }

  class ScheduleData {
    /** `Object.keys(scheduleData)`, in insertion order. */
    var keys: seq<string>
    var entries: map<string, Day>

    ghost predicate Valid()
      reads this
    {
      Distinct(keys) && forall k :: k in entries <==> k in keys
    }

    /** `var scheduleData = {}` */
    constructor()
      ensures Valid()
      ensures keys == [] && entries == map[]
    {
      keys := [];
      entries := map[];
    }

    /** `scheduleData[key] = day` */
    method Put(key: string, day: Day)
      requires Valid()
      modifies this
      ensures Valid()
      ensures keys == if key in old(keys) then old(keys) else old(keys) + [key]
      ensures entries == old(entries)[key := day]
    {
      if key !in keys {
        keys := keys + [key];
      }
      entries := entries[key := day];
    }

    /**
     * The fetch callback of `getScheduleData`: `None` when the request fails
     * (the callback never runs), otherwise the response text, parsed and
     * reshaped one weekday at a time.
     */
    method Refresh(body: Option<string>)
      requires Valid()
      modifies this
      ensures Valid()
      ensures body.None? ==> keys == old(keys) && entries == old(entries)
      ensures body.Some? ==> keys == AddKeys(old(keys), Days)
      ensures body.Some? ==> entries == WriteDays(old(entries), Csv.Parse(body.value), |Days|)
    {
      if body.None? {
        return;
      }
      var csv := Csv.ParseCsv(body.value);
      var i := 0;
      while i < |Days|
        invariant 0 <= i <= |Days|
        invariant Valid()
        invariant keys == AddKeys(old(keys), Days[..i])
        invariant entries == WriteDays(old(entries), csv, i)
      {
        var showsList := CollectShows(csv, i);
        AddKeysStep(old(keys), i);
        Put(Days[i], Day("", showsList));
        i := i + 1;
      }
      assert Days[..|Days|] == Days;
    }

    /** `generateScheduleHTML`: one card per key, in key order. */
    method GenerateScheduleHtml() returns (html: string)
      requires Valid()
      ensures ScheduleHtml.Covers(keys, entries)
      ensures html == ScheduleHtml.Render(keys, entries)
    {
      html := RenderCards(keys, entries);
    }

    /** `/api/show-schedule`: the template, read or not, with the schedule markup in place of its placeholder. */
    method ShowSchedule(template: Option<string>) returns (r: Response)
      requires Valid()
      ensures template.None? ==> r == Response(500, "Error loading page")
      ensures template.Some? ==>
                ScheduleHtml.Covers(keys, entries)
                && r == Response(200, ScheduleHtml.SchedulePage(template.value, ScheduleHtml.Render(keys, entries)))
      ensures template.Some? && '$' !in ScheduleHtml.Render(keys, entries) ==>
                r.body == ScheduleHtml.ReplaceFirstLiteral(template.value, ScheduleHtml.Placeholder, ScheduleHtml.Render(keys, entries))
    {
      if template.None? {
        return Response(500, "Error loading page");
      }
      var html := GenerateScheduleHtml();
      r := Response(200, ScheduleHtml.SchedulePage(template.value, html));
    }
  }

  /** A second refresh keeps the key order of the first. */
  lemma RefreshKeepsOrder(keys: seq<string>)
    ensures AddKeys(AddKeys(keys, Days), Days) == AddKeys(keys, Days)
  {
    AddPresentKeys(AddKeys(keys, Days), Days);
  }
}
