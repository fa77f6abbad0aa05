/**
 * The server-side rendering of the schedule page (`generateScheduleHTML`
 * and the `/api/show-schedule` handler, app.js): one day card per key of
 * the schedule map, one show item per entry, and the placeholder of the
 * page template replaced by the result.
 */
module ScheduleHtml {
  import opened Wrappers
  import opened JsStrings
  import opened Schedule

  /** A template literal prints an absent field as the text `undefined`. */
  function FieldText(v: Option<string>): string
  {
    match v
    case Some(t) => t
    case None => "undefined"
  }

  const ShowItemOpen: string := "\n      <div class=\"show-item\">\n        <div class=\"show-time\">"
  const TitleOpen: string := "</div>\n        <div class=\"show-title\">"
  const DescriptionOpen: string := "</div>\n        <div class=\"show-description\">"
  const ShowItemClose: string := "</div>\n      </div>\n    "

  /** `a` is a prefix of `a + b`, and what follows it is `b`. */
  lemma AfterPrefix(a: string, b: string)
    ensures StartsWith(a + b, a) && (a + b)[|a|..] == b
  {
    assert (a + b)[..|a|] == a;
  }

  /** `b` is a suffix of `a + b`. */
  lemma BeforeSuffix(a: string, b: string)
    ensures EndsWith(a + b, b)
  {
    assert (a + b)[|a|..] == b;
  }

  /**
   * The markup of one entry: the opening tags, the show's time, the title
   * tags and its title, and at the end the description tags, its
   * description and the closing tags.
   */
  function ShowItem(s: Show): (r: string)
    ensures StartsWith(r, ShowItemOpen)
    ensures StartsWith(r[|ShowItemOpen|..], FieldText(s.time))
    ensures StartsWith(r[|ShowItemOpen| + |FieldText(s.time)|..], TitleOpen + FieldText(s.title))
    ensures EndsWith(r, DescriptionOpen + FieldText(s.description) + ShowItemClose)
  {
    var tail := DescriptionOpen + FieldText(s.description) + ShowItemClose;
    var rest := FieldText(s.title) + tail;
    AfterPrefix(ShowItemOpen, FieldText(s.time) + (TitleOpen + rest));
    AfterPrefix(FieldText(s.time), TitleOpen + rest);
    Associative(TitleOpen, FieldText(s.title), tail);
    AfterPrefix(TitleOpen + FieldText(s.title), tail);
    Associative(ShowItemOpen + FieldText(s.time), TitleOpen, rest);
    Associative(ShowItemOpen, FieldText(s.time), TitleOpen + rest);
    Associative(ShowItemOpen + FieldText(s.time) + TitleOpen, FieldText(s.title), tail);
    BeforeSuffix(ShowItemOpen + FieldText(s.time) + TitleOpen + FieldText(s.title), tail);
    ShowItemOpen + (FieldText(s.time) + (TitleOpen + rest))
  }

  /** `shows.map(ShowItem).join('')`: the entries' markup, in list order. */
  function ShowsHtml(shows: seq<Show>): (r: string)
    ensures shows == [] <==> r == ""
    ensures shows != [] ==> StartsWith(r, ShowItemOpen)
  {
    if shows == [] then ""
    else
      var r := ShowItem(shows[0]) + ShowsHtml(shows[1..]);
      assert r[..|ShowItemOpen|] == ShowItem(shows[0])[..|ShowItemOpen|];
      r
  }

  /** The markup of a list is that of its parts, in the same order. */
  lemma {:induction false} ShowsHtmlAppend(a: seq<Show>, b: seq<Show>)
    ensures ShowsHtml(a + b) == ShowsHtml(a) + ShowsHtml(b)
  {
    if a != [] {
      assert (a + b)[0] == a[0];
      assert (a + b)[1..] == a[1..] + b;
      ShowsHtmlAppend(a[1..], b);
      Associative(ShowItem(a[0]), ShowsHtml(a[1..]), ShowsHtml(b));
    } else {
      assert a + b == b;
    }
  }

  /** `day.charAt(0).toUpperCase() + day.slice(1)` on the stored keys. */
  lemma DayNamesCapitalised()
    ensures Capitalize("monday") == "Monday" && Capitalize("sunday") == "Sunday"
  {
    assert Capitalize("monday") == ['M'] + "onday";
    assert Capitalize("sunday") == ['S'] + "unday";
  }

  const DayCardOpen: string := "\n      <div class=\"day-card\" data-day=\""
  const AttributeClose: string := "\""
  const EmojiOpen: string := ">\n        <div class=\"day-header\">\n          <div class=\"day-title\">\n            <span class=\"day-emoji\">"
  const NameOpen: string := "</span>\n            <span>"
  const ContentOpen: string :=
    "</span>\n          </div>\n          <span class=\"dropdown-icon\">\U{25BC}</span>\n        </div>\n        <div class=\"day-content\">\n          "
  const DayCardClose: string := "\n        </div>\n      </div>\n    "

  /**
   * The markup of one day: its key, emoji and capitalised name, then a
   * content block holding its entries.
   */
  function DayCard(key: string, day: Day): (r: string)
    ensures |r| > |DayCardOpen| + |key|
    ensures EndsWith(r, NameOpen + (Capitalize(key) + (ContentOpen + (ShowsHtml(day.shows) + DayCardClose))))
  {
    var tail := NameOpen + (Capitalize(key) + (ContentOpen + (ShowsHtml(day.shows) + DayCardClose)));
    Associative(EmojiOpen, day.emoji, tail);
    Associative(AttributeClose, EmojiOpen + day.emoji, tail);
    Associative(key, AttributeClose + (EmojiOpen + day.emoji), tail);
    Associative(DayCardOpen, key + (AttributeClose + (EmojiOpen + day.emoji)), tail);
    BeforeSuffix(DayCardOpen + (key + (AttributeClose + (EmojiOpen + day.emoji))), tail);
    DayCardOpen + (key + (AttributeClose + (EmojiOpen + (day.emoji + tail))))
  }

  /** The card starts with its opening markup, and its `data-day` attribute holds the key. */
  lemma DayCardKey(key: string, day: Day)
    ensures StartsWith(DayCard(key, day), DayCardOpen)
    ensures StartsWith(DayCard(key, day)[|DayCardOpen|..], key + AttributeClose)
  {
    var tail := day.emoji + (NameOpen + (Capitalize(key) + (ContentOpen + (ShowsHtml(day.shows) + DayCardClose))));
    OpensWith(DayCardOpen, key, AttributeClose, EmojiOpen + tail);
  }

  lemma OpensWith(open: string, key: string, close: string, more: string)
    ensures StartsWith(open + (key + (close + more)), open)
    ensures StartsWith((open + (key + (close + more)))[|open|..], key + close)
  {
    AfterPrefix(open, key + (close + more));
    Associative(key, close, more);
    AfterPrefix(key + close, more);
  }

  /** Every key the renderer visits has an entry. */
  predicate Covers(keys: seq<string>, entries: map<string, Day>)
  {
    forall k :: k in keys ==> k in entries
  }

  /** The card of each key, in key order. */
  function Cards(keys: seq<string>, entries: map<string, Day>): (cards: seq<string>)
    requires Covers(keys, entries)
    ensures |cards| == |keys|
    ensures forall i :: 0 <= i < |keys| ==> cards[i] == DayCard(keys[i], entries[keys[i]])
  {
    seq(|keys|, i requires 0 <= i < |keys| => assert keys[i] in keys; DayCard(keys[i], entries[keys[i]]))
  }

  /** The parts written one after another. */
  function Concat(parts: seq<string>): string
  {
    if parts == [] then "" else parts[0] + Concat(parts[1..])
  }

  lemma {:induction false} ConcatAppend(a: seq<string>, b: seq<string>)
    ensures Concat(a + b) == Concat(a) + Concat(b)
  {
    KeysAppend(a, b);
    if a != [] {
      ConcatAppend(a[1..], b);
      Associative(a[0], Concat(a[1..]), Concat(b));
    }
  }

  /** The page content: the cards of the keys, in key order. */
  function Render(keys: seq<string>, entries: map<string, Day>): (r: string)
    requires Covers(keys, entries)
    ensures keys == [] <==> r == ""
  {
    var cards := Cards(keys, entries);
    assert keys != [] ==> |cards[0]| > 0;
    Concat(cards)
  }

  lemma KeysAppend(a: seq<string>, b: seq<string>)
    ensures a == [] ==> a + b == b
    ensures a != [] ==> (a + b)[0] == a[0] && (a + b)[1..] == a[1..] + b
  {
    if a != [] {
      assert (a + b)[1..] == a[1..] + b;
    }
  }

  /** Cards appear in the order of the keys: the content of `a + b` is that of `a` followed by that of `b`. */
  lemma RenderAppend(a: seq<string>, b: seq<string>, entries: map<string, Day>)
    requires Covers(a, entries) && Covers(b, entries)
    ensures Covers(a + b, entries)
    ensures Render(a + b, entries) == Render(a, entries) + Render(b, entries)
  {
    forall k | k in a + b ensures k in entries {
      assert k in a || k in b;
    }
    CardsAppend(a, b, entries);
    ConcatAppend(Cards(a, entries), Cards(b, entries));
  }

  lemma CardsAppend(a: seq<string>, b: seq<string>, entries: map<string, Day>)
    requires Covers(a, entries) && Covers(b, entries) && Covers(a + b, entries)
    ensures Cards(a + b, entries) == Cards(a, entries) + Cards(b, entries)
  {
    var ab := Cards(a + b, entries);
    var ca := Cards(a, entries);
    var cb := Cards(b, entries);
    forall i | 0 <= i < |ab| ensures ab[i] == (ca + cb)[i] {
      if i < |a| {
        assert (a + b)[i] == a[i];
      } else {
        assert (a + b)[i] == b[i - |a|];
      }
    }
  }

  lemma PrefixCovers(keys: seq<string>, entries: map<string, Day>, n: nat)
    requires n <= |keys| && Covers(keys, entries)
    ensures Covers(keys[..n], entries)
  {
    assert forall k :: k in keys[..n] ==> k in keys;
  }

  /** Rendering one more key adds that key's card at the end. */
  lemma RenderPrefix(keys: seq<string>, entries: map<string, Day>, i: nat)
    requires i < |keys| && Covers(keys, entries)
    ensures Covers(keys[..i], entries) && Covers(keys[..i + 1], entries)
    ensures Render(keys[..i + 1], entries) == Render(keys[..i], entries) + DayCard(keys[i], entries[keys[i]])
  {
    PrefixCovers(keys, entries, i);
    PrefixCovers(keys, entries, i + 1);
    assert keys[i] in keys;
    assert keys[..i + 1] == keys[..i] + [keys[i]];
    RenderOne(keys[i], entries);
    RenderAppend(keys[..i], [keys[i]], entries);
  }

  /** A single key renders as exactly its card. */
  lemma RenderOne(key: string, entries: map<string, Day>)
    requires key in entries
    ensures Render([key], entries) == DayCard(key, entries[key])
  {
    var cards := Cards([key], entries);
    assert cards == [DayCard(key, entries[key])];
    ConcatOne(DayCard(key, entries[key]));
  }

  lemma ConcatOne(part: string)
    ensures Concat([part]) == part
  {
    assert [part][1..] == [];
    assert part + "" == part;
  }

  // ---------------------------------------------------------------- template

  const Placeholder: string := "{{SCHEDULE_CONTENT}}"

  /**
   * The replacement text a string-pattern `replace` actually inserts:
   * `$$` becomes `$`, `$&` the matched text, `` $` `` the text before the
   * match and `$'` the text after it; any other `$` stays as it is.
   */
  function Expand(repl: string, matched: string, before: string, after: string): (r: string)
    ensures '$' !in repl ==> r == repl
  {
    if repl == [] then ""
    else if repl[0] == '$' && |repl| >= 2 && repl[1] == '$' then "$" + Expand(repl[2..], matched, before, after)
    else if repl[0] == '$' && |repl| >= 2 && repl[1] == '&' then matched + Expand(repl[2..], matched, before, after)
    else if repl[0] == '$' && |repl| >= 2 && repl[1] == '`' then before + Expand(repl[2..], matched, before, after)
    else if repl[0] == '$' && |repl| >= 2 && repl[1] == '\'' then after + Expand(repl[2..], matched, before, after)
    else
      var r := [repl[0]] + Expand(repl[1..], matched, before, after);
      assert '$' !in repl ==> '$' !in repl[1..] && repl == [repl[0]] + repl[1..];
      r
  }

  /** `s.replace(pattern, repl)` as JavaScript evaluates it: the first occurrence, with `$` patterns expanded. */
  function ReplaceFirst(s: string, pattern: string, repl: string): (r: string)
    ensures IndexOf(s, pattern).None? ==> r == s
    ensures IndexOf(s, pattern).Some? ==>
              var k := IndexOf(s, pattern).value;
              |r| >= |s| - |pattern| && r[..k] == s[..k] && r[|r| - (|s| - k - |pattern|)..] == s[k + |pattern|..]
  {
    match IndexOf(s, pattern)
    case None => s
    case Some(k) =>
      var before, after := s[..k], s[k + |pattern|..];
      Surrounds(before, Expand(repl, pattern, before, after), after);
      before + Expand(repl, pattern, before, after) + after
  }

  /** The text around a middle part is kept at both ends. */
  lemma Surrounds(before: string, middle: string, after: string)
    ensures var r := before + middle + after;
            r[..|before|] == before && r[|r| - |after|..] == after
  {
    var r := before + middle + after;
    assert r[..|before|] == before;
    assert r[|r| - |after|..] == after;
  }

  /** The intended replacement: the first occurrence of `pattern` replaced by `repl`, character for character. */
  function ReplaceFirstLiteral(s: string, pattern: string, repl: string): (r: string)
    ensures (forall j :: !OccursAt(s, pattern, j)) ==> r == s
    ensures IndexOf(s, pattern).Some? ==>
              var k := IndexOf(s, pattern).value;
              |r| == |s| - |pattern| + |repl| && r[..k] == s[..k] && r[k..k + |repl|] == repl
              && r[k + |repl|..] == s[k + |pattern|..]
  {
    match IndexOf(s, pattern)
    case None => s
    case Some(k) => s[..k] + repl + s[k + |pattern|..]
  }

  /** When the placeholder is first met right after `before`, the page is `before + html + after`. */
  lemma FillsFirstPlaceholder(before: string, after: string, html: string)
    requires forall j :: 0 <= j < |before| ==> !OccursAt(before + Placeholder + after, Placeholder, j)
    ensures ReplaceFirstLiteral(before + Placeholder + after, Placeholder, html) == before + html + after
  {
    var s := before + Placeholder + after;
    assert s[|before|..|before| + |Placeholder|] == Placeholder;
    assert OccursAt(s, Placeholder, |before|);
    var k := IndexOf(s, Placeholder).value;
    assert k == |before|;
    assert s[..k] == before;
    assert s[k + |Placeholder|..] == after;
  }

  /** The evaluated `replace` matches the intended one whenever the content holds no `$`. */
  lemma ReplaceAgreesWithoutDollar(s: string, pattern: string, repl: string)
    requires '$' !in repl
    ensures ReplaceFirst(s, pattern, repl) == ReplaceFirstLiteral(s, pattern, repl)
  {
  }

  /** Schedule text holding `$$` loses a dollar sign on the page. */
  lemma DollarPairCollapses()
    ensures ReplaceFirst(Placeholder, Placeholder, "$$") == "$"
    ensures SchedulePage(Placeholder, "$$") == "$"
    ensures ReplaceFirstLiteral(Placeholder, Placeholder, "$$") == "$$"
  {
    assert OccursAt(Placeholder, Placeholder, 0);
    assert IndexOf(Placeholder, Placeholder) == Some(0);
    assert Expand("$$", Placeholder, "", "") == "$" + Expand("", Placeholder, "", "");
  }

  /** Schedule text holding `$&` prints the placeholder itself back into the page. */
  lemma MatchedTextReinserted()
    ensures ReplaceFirst(Placeholder, Placeholder, "$&") == Placeholder
  {
    assert OccursAt(Placeholder, Placeholder, 0);
    assert IndexOf(Placeholder, Placeholder) == Some(0);
    assert Expand("$&", Placeholder, "", "") == Placeholder + Expand("", Placeholder, "", "");
  }

  /**
   * The page sent for `/api/show-schedule`: the template with its first
   * placeholder replaced by the schedule markup, read as a `replace`
   * pattern.  Markup without `$` goes in character for character.
   */
  function SchedulePage(template: string, html: string): (page: string)
    ensures IndexOf(template, Placeholder).None? ==> page == template
    ensures '$' !in html ==> page == ReplaceFirstLiteral(template, Placeholder, html)
    ensures IndexOf(template, Placeholder).Some? ==>
              var k := IndexOf(template, Placeholder).value;
              |page| >= |template| - |Placeholder| && page[..k] == template[..k]
              && page[|page| - (|template| - k - |Placeholder|)..] == template[k + |Placeholder|..]
  {
    var page := ReplaceFirst(template, Placeholder, html);
    assert '$' !in html ==> page == ReplaceFirstLiteral(template, Placeholder, html) by {
      if '$' !in html {
        ReplaceAgreesWithoutDollar(template, Placeholder, html);
      }
    }
    page
  }

  /** Markup without `$` lands exactly where the first placeholder stood. */
  lemma PageFillsPlaceholder(before: string, after: string, html: string)
    requires forall j :: 0 <= j < |before| ==> !OccursAt(before + Placeholder + after, Placeholder, j)
    requires '$' !in html
    ensures SchedulePage(before + Placeholder + after, html) == before + html + after
  {
    FillsFirstPlaceholder(before, after, html);
  }
}
