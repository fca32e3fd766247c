/**
  The pure helpers of main.py: cutting a generated prompt down to the image title limit,
  and naming the day from the holiday and silly-day tables (constants of the program,
  passed in here as maps).
*/
module MainHelpers {
  import PyText

  /** `trim_string`'s default limit: the image services cut titles after 1,023 characters. */
  const DefaultCharLimit: int := 1023

  /** `trim_string`: text within the limit is kept; longer text is cut after the last '.'
      among its first charLimit + 1 characters (or at charLimit when there is none), and a
      closing '"' is put back. */
  function TrimString(text: string, charLimit: int): (r: string)
    ensures |text| <= charLimit ==> r == text
    ensures 0 <= charLimit < |text| ==>
              1 <= |r| <= charLimit + 2 && r[|r| - 1] == '"' && r[..|r| - 1] == text[..|r| - 1]
  {
    if |text| <= charLimit then text
    else
      var trimmed := PyText.Slice(text, 0, charLimit + 1);
      var lastPeriod := PyText.RFind(trimmed, '.');
      if lastPeriod != -1 then PyText.Slice(trimmed, 0, lastPeriod + 1) + "\""
      else PyText.Slice(trimmed, 0, charLimit) + "\""
  }

  /** The titles `main` builds with the default limit are at most 1,025 characters long,
      and a title that had to be cut ends in '"'. */
  lemma DefaultLimitTitle(text: string)
    ensures var r := TrimString(text, DefaultCharLimit);
      |r| <= DefaultCharLimit + 2 && (|text| > DefaultCharLimit ==> r[|r| - 1] == '"')
  {
    if |text| > DefaultCharLimit {
      assert 0 <= DefaultCharLimit < |text|;
    }
  }

  /** Long text with a '.' in the window ends right after the last such '.'. */
  lemma TrimAtLastPeriod(text: string, charLimit: int, p: nat)
    requires 0 <= charLimit < |text|
    requires p <= charLimit && text[p] == '.'
    requires forall j :: p < j <= charLimit ==> text[j] != '.'
    ensures TrimString(text, charLimit) == text[..p + 1] + "\""
  {
    var trimmed := text[..charLimit + 1];
    assert PyText.Slice(text, 0, charLimit + 1) == trimmed;
    LastPeriodOfWindow(text, charLimit, p);
    assert PyText.Slice(trimmed, 0, p + 1) == text[..p + 1];
  }

  lemma LastPeriodOfWindow(text: string, charLimit: nat, p: nat)
    requires p <= charLimit < |text| && text[p] == '.'
    requires forall j :: p < j <= charLimit ==> text[j] != '.'
    ensures PyText.RFind(text[..charLimit + 1], '.') == p
  {
    PyText.RFindLast(text[..charLimit + 1], '.', p);
  }

  /** Long text with no '.' in the window keeps its first charLimit characters. */
  lemma TrimWithoutPeriod(text: string, charLimit: int)
    requires 0 <= charLimit < |text|
    requires '.' !in text[..charLimit + 1]
    ensures TrimString(text, charLimit) == text[..charLimit] + "\""
    ensures |TrimString(text, charLimit)| == charLimit + 1
  {
    var trimmed := PyText.Slice(text, 0, charLimit + 1);
    assert trimmed == text[..charLimit + 1];
    assert trimmed[..charLimit] == text[..charLimit];
  }

  /** `get_holiday`: `HOLIDAYS.get(date, "")`. */
  function GetHoliday(holidays: map<string, string>, date: string): (r: string)
    ensures date in holidays ==> r == holidays[date]
    ensures date !in holidays ==> r == ""
  {
    if date in holidays then holidays[date] else ""
  }

  /** The day's silly days, `SILLY_DAYS.get(date, [])`: the table's list for a listed date,
      and no events for any other. */
  function Events(sillyDays: map<string, seq<string>>, date: string): (r: seq<string>)
    ensures date in sillyDays ==> r == sillyDays[date]
    ensures date !in sillyDays ==> r == []
  {
    if date in sillyDays then sillyDays[date] else []
  }

  /** `get_silly_day`: all but the last event joined by ", ", then " and " and the last. */
  function GetSillyDay(sillyDays: map<string, seq<string>>, date: string): (r: string)
    ensures Events(sillyDays, date) == [] ==> r == ""
    ensures |Events(sillyDays, date)| == 1 ==> r == Events(sillyDays, date)[0]
    ensures |Events(sillyDays, date)| == 2 ==>
              r == Events(sillyDays, date)[0] + " and " + Events(sillyDays, date)[1]
  {
    var events := Events(sillyDays, date);
    if events == [] then ""
    else if |events| == 1 then events[0]
    else PyText.Join(events[..|events| - 1], ", ") + " and " + events[|events| - 1]
  }

  /** An English list, built from the front: "a", "a and b", "a, b and c", ... */
  function EnglishList(xs: seq<string>): string
    requires xs != []
  {
    if |xs| == 1 then xs[0]
    else if |xs| == 2 then xs[0] + " and " + xs[1]
    else xs[0] + ", " + EnglishList(xs[1..])
  }

  lemma {:induction false} JoinThenAnd(xs: seq<string>)
    requires |xs| >= 2
    ensures PyText.Join(xs[..|xs| - 1], ", ") + " and " + xs[|xs| - 1] == EnglishList(xs)
  {
    if |xs| > 2 {
      var rest := xs[1..];
      JoinThenAnd(rest);
      assert xs[..|xs| - 1] == [xs[0]] + rest[..|rest| - 1];
      assert (xs[..|xs| - 1])[1..] == rest[..|rest| - 1];
    }
  }

  /** `get_silly_day` names the events as an English list. */
  lemma SillyDayIsEnglishList(sillyDays: map<string, seq<string>>, date: string)
    ensures Events(sillyDays, date) != [] ==>
              GetSillyDay(sillyDays, date) == EnglishList(Events(sillyDays, date))
  {
    var events := Events(sillyDays, date);
    if |events| >= 2 {
      JoinThenAnd(events);
    }
  }
}
