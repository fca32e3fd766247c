/**
  The decision and string helpers of generate.py: naming the day and the news for the
  text prompt, cleaning a returned image prompt for the metadata file, the escalation
  table used when image generation fails, the list of skipped options that `main` reports,
  and the prompt actually sent to the image model.
*/
module Generate {
  import opened Wrappers
  import PyText

  // ---------------------------------------------------------------------------
  // get_today_and_newslist

  /** Python truthiness of a value that is None or a str. */
  predicate Truthy(o: Option<string>) {
    o.Some? && o.value != ""
  }

  // The two endings of `today`; the leading ';' is written apart so that proofs can see it.
  const RankedSuffix: string := ";" + " ranked in order of importance"
  const SeasonalSuffix: string := ";" + " approximate the seasonal feel in the United States"
  const NewsLead: string := "events, holidays-- and particularly engrossed in the breaking news story \""
  const NoNews: string := "events and holidays"

  /** `get_today_and_newslist`: the `today` clause and the `newslist` phrase. */
  function TodayAndNewslist(theDate: string, holiday: Option<string>, sillyDay: Option<string>,
                            news: Option<string>): (r: (string, string))
    ensures Truthy(holiday) && Truthy(sillyDay) ==>
              r.0 == theDate + ", " + holiday.value + " and " + sillyDay.value + RankedSuffix
    ensures Truthy(holiday) && !Truthy(sillyDay) ==> r.0 == theDate + ", " + holiday.value + RankedSuffix
    ensures !Truthy(holiday) && Truthy(sillyDay) ==> r.0 == theDate + ", " + sillyDay.value + RankedSuffix
    ensures !Truthy(holiday) && !Truthy(sillyDay) ==> r.0 == theDate + SeasonalSuffix
    ensures Truthy(news) ==> r.1 == NewsLead + news.value + "\""
    ensures !Truthy(news) ==> r.1 == NoNews
  {
    var theDay := NamedDay(holiday, sillyDay);
    var today :=
      if theDay.Some? then theDate + ", " + theDay.value + RankedSuffix
      else theDate + SeasonalSuffix;
    var newslist := if Truthy(news) then NewsLead + news.value + "\"" else NoNews;
    (today, newslist)
  }

  /** The day's name as `the_day` holds it, when some holiday or silly day is present: it
      opens with the holiday and closes with the silly day, whichever of them are given. */
  function NamedDay(holiday: Option<string>, sillyDay: Option<string>): (r: Option<string>)
    ensures r.None? <==> !Truthy(holiday) && !Truthy(sillyDay)
    ensures r.Some? ==> r.value != ""
    ensures Truthy(holiday) ==> PyText.StartsWith(r.value, holiday.value)
    ensures Truthy(sillyDay) ==> PyText.EndsWith(r.value, sillyDay.value)
  {
    if Truthy(holiday) && Truthy(sillyDay) then
      var both := holiday.value + " and " + sillyDay.value;
      assert both[..|holiday.value|] == holiday.value;
      assert both[|both| - |sillyDay.value|..] == sillyDay.value;
      Some(both)
    else if Truthy(holiday) then
      assert holiday.value[..|holiday.value|] == holiday.value;
      Some(holiday.value)
    else if Truthy(sillyDay) then
      assert sillyDay.value[|sillyDay.value| - |sillyDay.value|..] == sillyDay.value;
      Some(sillyDay.value)
    else None
  }

  /** `today` asks for a ranking exactly when a holiday or a silly day is present, and it
      always opens with the date. */
  lemma TodayRankedIff(theDate: string, holiday: Option<string>, sillyDay: Option<string>,
                       news: Option<string>)
    ensures var today := TodayAndNewslist(theDate, holiday, sillyDay, news).0;
      PyText.StartsWith(today, theDate)
      && (PyText.EndsWith(today, RankedSuffix) <==> Truthy(holiday) || Truthy(sillyDay))
  {
    var today := TodayAndNewslist(theDate, holiday, sillyDay, news).0;
    assert today[..|theDate|] == theDate;
    if !Truthy(holiday) && !Truthy(sillyDay) {
      assert today[|today| - 1] == 's';
      assert RankedSuffix[|RankedSuffix| - 1] == 'e';
      assert today[|today| - |RankedSuffix|..][|RankedSuffix| - 1] == today[|today| - 1];
    } else {
      var k := |today| - |RankedSuffix|;
      assert today[k..] == RankedSuffix;
    }
  }

  /** What the prompt summary prints as "Today" (`today.split(';')[0]`) is the date,
      followed by the day's name when there is one, provided none of them holds a ';'. */
  lemma TodayHeadline(theDate: string, holiday: Option<string>, sillyDay: Option<string>,
                      news: Option<string>)
    requires ';' !in theDate
    requires holiday.Some? ==> ';' !in holiday.value
    requires sillyDay.Some? ==> ';' !in sillyDay.value
    ensures PyText.SplitHead(TodayAndNewslist(theDate, holiday, sillyDay, news).0, ';')
            == match NamedDay(holiday, sillyDay)
               case Some(day) => theDate + ", " + day
               case None => theDate
  {
    var head := match NamedDay(holiday, sillyDay)
      case Some(day) => theDate + ", " + day
      case None => theDate;
    var tail := if NamedDay(holiday, sillyDay).Some? then RankedSuffix else SeasonalSuffix;
    assert TodayAndNewslist(theDate, holiday, sillyDay, news).0 == head + tail;
    assert ';' !in head by {
      assert ';' !in ", " && ';' !in " and ";
    }
    assert tail[0] == ';';
    PyText.SplitHeadAt(head, tail, ';');
  }

  /** `newslist` is the plain "events and holidays" exactly when there is no news, and
      otherwise ends with the headline in double quotes. */
  lemma NewslistIff(theDate: string, holiday: Option<string>, sillyDay: Option<string>,
                    news: Option<string>)
    ensures var newslist := TodayAndNewslist(theDate, holiday, sillyDay, news).1;
      (newslist == NoNews <==> !Truthy(news))
      && (Truthy(news) ==> PyText.EndsWith(newslist, "\"" + news.value + "\""))
  {
    var newslist := TodayAndNewslist(theDate, holiday, sillyDay, news).1;
    if Truthy(news) {
      assert |newslist| > |NoNews|;
      var quoted := "\"" + news.value + "\"";
      assert newslist == NewsLead[..|NewsLead| - 1] + quoted;
      assert newslist[|newslist| - |quoted|..] == quoted;
    }
  }

  // ---------------------------------------------------------------------------
  // Prompt cleaning in generate_images and write_daily_prompt_json

  /** The headings the text model puts in front of its answer. */
  const Markers: seq<string> := ["**Image Prompt:**\n\n", "**Prompt:** "]

  /** A literal backslash-n, and a backslash before a double quote. */
  const EscapedNewline: string := "\\n"
  const EscapedQuote: string := "\\\""

  /** Deleting each marker in turn, as the `for marker in [...]` loops do. The text never
      grows, and text holding no marker is left as it is. */
  function RemoveMarkers(s: string, markers: seq<string>): (r: string)
    requires forall i :: 0 <= i < |markers| ==> markers[i] != []
    ensures |r| <= |s|
    ensures (forall m :: m in markers ==> !PyText.Contains(s, m)) ==> r == s
    decreases |markers|
  {
    if markers == [] then s
    else
      var next := PyText.Replace(s, markers[0], "");
      PyText.ReplaceLength(s, markers[0], "");
      assert !PyText.Contains(s, markers[0]) ==> next == s by {
        if !PyText.Contains(s, markers[0]) {
          PyText.ReplaceAbsent(s, markers[0], "");
        }
      }
      assert forall m :: m in markers[1..] ==> m in markers;
      RemoveMarkers(next, markers[1..])
  }

  /** The metadata prompt of `generate_images`: unescaping and deleting markers only ever
      shorten the text returned by the text model. */
  function Cleaned(dallePrompt: string): (r: string)
    ensures |r| <= |dallePrompt|
  {
    var unnewlined := PyText.Replace(dallePrompt, EscapedNewline, "\n");
    var unescaped := PyText.Replace(unnewlined, EscapedQuote, "\"");
    PyText.ReplaceLength(dallePrompt, EscapedNewline, "\n");
    PyText.ReplaceLength(unnewlined, EscapedQuote, "\"");
    RemoveMarkers(unescaped, Markers)
  }

  /** A prompt as `write_daily_prompt_json` stores it, never longer than the prompt given. */
  function JsonCleaned(prompt: string): (r: string)
    ensures |r| <= |prompt|
  {
    var stripped := PyText.Strip(prompt, '"');
    PyText.ReplaceLength(stripped, EscapedNewline, "\n");
    RemoveMarkers(PyText.Replace(stripped, EscapedNewline, "\n"), Markers)
  }

  /** generate.py's cleaning of the returned prompt before it is reported and stored. */
  method CleanPrompt(dallePrompt: string) returns (clean: string)
    ensures clean == Cleaned(dallePrompt)
  {
    clean := PyText.Replace(PyText.Replace(dallePrompt, EscapedNewline, "\n"), EscapedQuote, "\"");
    ghost var unescaped := clean;
    for i := 0 to |Markers|
      invariant RemoveMarkers(clean, Markers[i..]) == RemoveMarkers(unescaped, Markers)
    {
      assert Markers[i..][0] == Markers[i] && Markers[i..][1..] == Markers[i + 1..];
      clean := PyText.Replace(clean, Markers[i], "");
    }
  }

  /** `write_daily_prompt_json`'s cleaning of both orientations, in one marker loop. */
  method CleanForJson(landscapePrompt: string, portraitPrompt: string)
    returns (cleanLandscape: string, cleanPortrait: string)
    ensures cleanLandscape == JsonCleaned(landscapePrompt)
    ensures cleanPortrait == JsonCleaned(portraitPrompt)
  {
    cleanLandscape := PyText.Replace(PyText.Strip(landscapePrompt, '"'), EscapedNewline, "\n");
    cleanPortrait := PyText.Replace(PyText.Strip(portraitPrompt, '"'), EscapedNewline, "\n");
    ghost var landscape0, portrait0 := cleanLandscape, cleanPortrait;
    for i := 0 to |Markers|
      invariant RemoveMarkers(cleanLandscape, Markers[i..]) == RemoveMarkers(landscape0, Markers)
      invariant RemoveMarkers(cleanPortrait, Markers[i..]) == RemoveMarkers(portrait0, Markers)
    {
      assert Markers[i..][0] == Markers[i] && Markers[i..][1..] == Markers[i + 1..];
      cleanLandscape := PyText.Replace(cleanLandscape, Markers[i], "");
      cleanPortrait := PyText.Replace(cleanPortrait, Markers[i], "");
    }
  }

  /** Deleting markers changes the text exactly when one of them occurs in it. */
  lemma {:induction false} RemoveMarkersLength(s: string, markers: seq<string>)
    requires forall i :: 0 <= i < |markers| ==> markers[i] != []
    ensures RemoveMarkers(s, markers) == s <==> forall m :: m in markers ==> !PyText.Contains(s, m)
    decreases |markers|
  {
    if markers != [] {
      var next := PyText.Replace(s, markers[0], "");
      PyText.ReplaceLength(s, markers[0], "");
      PyText.ReplaceFixedIff(s, markers[0], "");
      RemoveMarkersLength(next, markers[1..]);
      assert forall m :: m in markers <==> m == markers[0] || m in markers[1..];
    }
  }

  /** The cleaning of `generate_images` leaves a prompt alone exactly when it holds no
      escaped newline, no escaped quote and neither marker. */
  lemma CleanedFixedIff(p: string)
    ensures Cleaned(p) == p <==>
      !PyText.Contains(p, EscapedNewline) && !PyText.Contains(p, EscapedQuote)
      && forall m :: m in Markers ==> !PyText.Contains(p, m)
  {
    var a := PyText.Replace(p, EscapedNewline, "\n");
    var b := PyText.Replace(a, EscapedQuote, "\"");
    PyText.ReplaceFixedIff(p, EscapedNewline, "\n");
    PyText.ReplaceLength(p, EscapedNewline, "\n");
    PyText.ReplaceFixedIff(a, EscapedQuote, "\"");
    PyText.ReplaceLength(a, EscapedQuote, "\"");
    RemoveMarkersLength(b, Markers);
  }

  /** In particular a prompt with no backslash and no marker comes back unchanged. */
  lemma CleanedWithoutBackslash(p: string)
    requires '\\' !in p
    requires forall m :: m in Markers ==> !PyText.Contains(p, m)
    ensures Cleaned(p) == p
  {
    assert EscapedNewline[0] == '\\' && EscapedQuote[0] == '\\';
    PyText.NotContainsForeignChar(p, EscapedNewline, '\\');
    PyText.NotContainsForeignChar(p, EscapedQuote, '\\');
    CleanedFixedIff(p);
  }

  /** The stored prompt is left alone exactly when it neither starts nor ends with a
      double quote and holds no escaped newline and neither marker. */
  lemma JsonCleanedFixedIff(p: string)
    ensures JsonCleaned(p) == p <==>
      (p == [] || (p[0] != '"' && p[|p| - 1] != '"'))
      && !PyText.Contains(p, EscapedNewline)
      && forall m :: m in Markers ==> !PyText.Contains(p, m)
  {
    StripUnescapeRemoveFixedIff(p, Markers);
  }

  lemma StripUnescapeRemoveFixedIff(p: string, markers: seq<string>)
    requires forall i :: 0 <= i < |markers| ==> markers[i] != []
    ensures RemoveMarkers(PyText.Replace(PyText.Strip(p, '"'), EscapedNewline, "\n"), markers) == p <==>
      (p == [] || (p[0] != '"' && p[|p| - 1] != '"'))
      && !PyText.Contains(p, EscapedNewline)
      && forall m :: m in markers ==> !PyText.Contains(p, m)
  {
    var a := PyText.Strip(p, '"');
    var b := PyText.Replace(a, EscapedNewline, "\n");
    var r := RemoveMarkers(b, markers);
    PyText.StripFixedIff(p, '"');
    PyText.ReplaceFixedIff(a, EscapedNewline, "\n");
    PyText.ReplaceLength(a, EscapedNewline, "\n");
    RemoveMarkersLength(b, markers);
    if r == p {
      assert |a| == |p| && |b| == |a|;
      PyText.StripSameLength(p, '"');
      assert a == p && b == a;
    }
  }

  // ---------------------------------------------------------------------------
  // The retry table of generate_images

  datatype SkipFlag = SkipCalendar | SkipHolidays | SkipSillyDays | SkipNews

  /** The `image_args` tuple, with the date, style and model already resolved by `main`. */
  datatype ImageArgs = ImageArgs(theDate: string, style: string, imageModel: string,
                                 skipCalendar: bool, skipHolidays: bool, skipSillyDays: bool,
                                 skipNews: bool, skipUpload: bool)

  /** One entry of `attempt_changes`: an optional forced style and the skip flags it sets
      (every flag the table names it sets to True). */
  datatype Changes = Changes(style: Option<string>, forced: set<SkipFlag>)

  const BobRoss: string := "Bob Ross, with peaceful happy little trees"
  const MaxFailedAttempts: int := 5
  const AllFlags: set<SkipFlag> := {SkipCalendar, SkipHolidays, SkipSillyDays, SkipNews}

  /** `attempt_changes[n]`; None stands for the KeyError of a number outside 1..5. The news
      is dropped from the second attempt on, every optional part from the fourth, and only
      the fifth replaces the style, with the Bob Ross one. */
  function AttemptChanges(n: int): (r: Option<Changes>)
    ensures r.Some? <==> 1 <= n <= MaxFailedAttempts
    ensures r.Some? ==> (SkipNews in r.value.forced <==> n >= 2)
    ensures r.Some? ==> (r.value.forced == AllFlags <==> n >= 4)
    ensures r.Some? ==> (r.value.style.Some? <==> n == MaxFailedAttempts)
    ensures r.Some? && r.value.style.Some? ==> r.value.style.value == BobRoss
  {
    if n == 1 then Some(Changes(None, {}))
    else if n == 2 then Some(Changes(None, {SkipNews}))
    else if n == 3 then Some(Changes(None, {SkipCalendar, SkipNews}))
    else if n == 4 then Some(Changes(None, AllFlags))
    else if n == 5 then Some(Changes(Some(BobRoss), AllFlags))
    else None
  }

  /** The skip flags an argument tuple has set. */
  function Skips(a: ImageArgs): set<SkipFlag> {
    (if a.skipCalendar then {SkipCalendar} else {})
    + (if a.skipHolidays then {SkipHolidays} else {})
    + (if a.skipSillyDays then {SkipSillyDays} else {})
    + (if a.skipNews then {SkipNews} else {})
  }

  /** The arguments of the retried `main` call: `changes.get(key, current)`. The forced
      flags are added to the ones already set, the style is replaced only when the entry
      names one, and the date, model and upload flag pass through. */
  function ApplyChanges(ch: Changes, a: ImageArgs): (r: ImageArgs)
    ensures Skips(r) == Skips(a) + ch.forced
    ensures ch.style.Some? ==> r.style == ch.style.value
    ensures ch.style.None? ==> r.style == a.style
    ensures r.theDate == a.theDate && r.imageModel == a.imageModel && r.skipUpload == a.skipUpload
  {
    var style := if ch.style.Some? then ch.style.value else a.style;
    var calendar := if SkipCalendar in ch.forced then true else a.skipCalendar;
    var holidays := if SkipHolidays in ch.forced then true else a.skipHolidays;
    var sillyDays := if SkipSillyDays in ch.forced then true else a.skipSillyDays;
    var news := if SkipNews in ch.forced then true else a.skipNews;
    var r := ImageArgs(a.theDate, style, a.imageModel, calendar, holidays, sillyDays, news,
                       a.skipUpload);
    SkipsAdded(a, ch.forced, r);
    r
  }

  /** Flags that are each set when set before or forced make the union of the two sets. */
  lemma SkipsAdded(a: ImageArgs, forced: set<SkipFlag>, r: ImageArgs)
    requires r.skipCalendar <==> a.skipCalendar || SkipCalendar in forced
    requires r.skipHolidays <==> a.skipHolidays || SkipHolidays in forced
    requires r.skipSillyDays <==> a.skipSillyDays || SkipSillyDays in forced
    requires r.skipNews <==> a.skipNews || SkipNews in forced
    ensures Skips(r) == Skips(a) + forced
  {
    forall f: SkipFlag ensures f in Skips(r) <==> f in Skips(a) + forced {
      match f
      case SkipCalendar =>
      case SkipHolidays =>
      case SkipSillyDays =>
      case SkipNews =>
    }
  }

  /** What `generate_images` does after an image request fails. */
  datatype Retry = Rerun(args: ImageArgs, failedAttempts: int) | GiveUp | MissingKey

  /** The failure branch of `generate_images`: count the failure, then rerun `main` with
      the table's changes, or exit after more than five failures. */
  function OnImageFailure(a: ImageArgs, failedAttempts: int): (r: Retry)
    ensures r.GiveUp? <==> failedAttempts >= MaxFailedAttempts
    ensures r.MissingKey? <==> failedAttempts < 0
    ensures r.Rerun? ==>
              var n := failedAttempts + 1;
              && r.failedAttempts == n
              && Skips(r.args) == Skips(a) + AttemptChanges(n).value.forced
              && r.args.style == (if n == MaxFailedAttempts then BobRoss else a.style)
              && r.args.theDate == a.theDate && r.args.imageModel == a.imageModel
              && r.args.skipUpload == a.skipUpload
  {
    var n := failedAttempts + 1;
    if n <= MaxFailedAttempts then
      match AttemptChanges(n)
      case None => MissingKey
      case Some(ch) => Rerun(ApplyChanges(ch, a), n)
    else GiveUp
  }

  /** Each attempt forces every skip flag the previous one forced. */
  lemma ForcedSkipsGrow(n: int)
    requires 1 <= n < MaxFailedAttempts
    ensures AttemptChanges(n).Some? && AttemptChanges(n + 1).Some?
    ensures AttemptChanges(n).value.forced <= AttemptChanges(n + 1).value.forced
  {
  }

  /** Five failures in a row, starting from the first call, skip everything optional and
      switch to the fixed style; a sixth failure gives up. */
  lemma FiveFailures(a: ImageArgs)
    ensures var r1 := OnImageFailure(a, 0);
      && r1.Rerun? && r1.args.style == a.style && Skips(r1.args) == Skips(a)
      && var r2 := OnImageFailure(r1.args, r1.failedAttempts);
      && r2.Rerun? && var r3 := OnImageFailure(r2.args, r2.failedAttempts);
      && r3.Rerun? && var r4 := OnImageFailure(r3.args, r3.failedAttempts);
      && r4.Rerun? && var r5 := OnImageFailure(r4.args, r4.failedAttempts);
      && r5.Rerun? && r5.failedAttempts == MaxFailedAttempts
      && Skips(r5.args) == AllFlags && r5.args.style == BobRoss
      && OnImageFailure(r5.args, r5.failedAttempts) == GiveUp
  {
  }

  // ---------------------------------------------------------------------------
  // skipped_args in main

  /** The Python values found among `main`'s locals. */
  datatype PyValue = PyNone | PyBool(b: bool) | PyInt(i: int) | PyFloat(f: real) | PyStr(s: string)

  predicate PyTruthy(v: PyValue) {
    match v
    case PyNone => false
    case PyBool(b) => b
    case PyInt(i) => i != 0
    case PyFloat(f) => f != 0.0
    case PyStr(s) => s != ""
  }

  function OptionalStr(o: Option<string>): PyValue {
    if o.Some? then PyStr(o.value) else PyNone
  }

  /** `locals()` at the top of `main`: the parameters in order, then the timer `t1`. Ten
      names, and only the five flag parameters carry the `skip_` prefix. */
  function MainLocals(theDate: Option<string>, style: Option<string>, model: Option<string>,
                      skipCalendar: bool, skipHolidays: bool, skipSillyDays: bool,
                      skipNews: bool, skipUpload: bool, failedAttempts: int, t1: real)
    : (r: seq<(string, PyValue)>)
    ensures |r| == 10
    ensures forall i :: 0 <= i < |r| ==> (PyText.StartsWith(r[i].0, SkipPrefix) <==> 3 <= i < 8)
  {
    PrefixedSkipLocal("calendar", skipCalendar);
    PrefixedSkipLocal("holidays", skipHolidays);
    PrefixedSkipLocal("silly_days", skipSillyDays);
    PrefixedSkipLocal("news", skipNews);
    PrefixedSkipLocal("upload", skipUpload);
    PyText.DiffersAt("the_date", SkipPrefix, 1);
    PyText.DiffersAt("style", SkipPrefix, 1);
    PyText.DiffersAt("model", SkipPrefix, 1);
    PyText.DiffersAt("failed_attempts", SkipPrefix, 1);
    PyText.DiffersAt("t1", SkipPrefix, 0);
    [("the_date", OptionalStr(theDate)), ("style", OptionalStr(style)), ("model", OptionalStr(model)),
     SkipLocal("calendar", skipCalendar), SkipLocal("holidays", skipHolidays),
     SkipLocal("silly_days", skipSillyDays), SkipLocal("news", skipNews),
     SkipLocal("upload", skipUpload), ("failed_attempts", PyInt(failedAttempts)),
     ("t1", PyFloat(t1))]
  }

  const SkipPrefix: string := "skip_"

  /** The local `skip_<option>` holding the flag b. */
  function SkipLocal(option: string, b: bool): (string, PyValue) {
    (SkipPrefix + option, PyBool(b))
  }

  lemma PrefixedSkipLocal(option: string, b: bool)
    ensures PyText.StartsWith(SkipLocal(option, b).0, SkipPrefix)
  {
    assert (SkipPrefix + option)[..|SkipPrefix|] == SkipPrefix;
  }

  /** What one (name, value) pair contributes to `skipped_args`: at most one name, and one
      exactly when the name has the `skip_` prefix and the value is truthy. */
  function SkippedName(entry: (string, PyValue)): (r: seq<string>)
    ensures |r| <= 1
    ensures r != [] <==> PyText.StartsWith(entry.0, SkipPrefix) && PyTruthy(entry.1)
  {
    if PyText.StartsWith(entry.0, SkipPrefix) && PyTruthy(entry.1)
    then [PyText.Replace(entry.0, SkipPrefix, "")] else []
  }

  /** The `skipped_args` comprehension over a list of (name, value) pairs: at most one
      name per pair, and none at all when no pair qualifies. */
  function SkippedArgs(locals: seq<(string, PyValue)>): (r: seq<string>)
    ensures |r| <= |locals|
  {
    if locals == [] then [] else SkippedName(locals[0]) + SkippedArgs(locals[1..])
  }

  /** The names of the set skip options, in parameter order. */
  function SkipNames(skipCalendar: bool, skipHolidays: bool, skipSillyDays: bool,
                     skipNews: bool, skipUpload: bool): seq<string>
  {
    Flagged("calendar", skipCalendar)
    + (Flagged("holidays", skipHolidays)
    + (Flagged("silly_days", skipSillyDays)
    + (Flagged("news", skipNews)
    + Flagged("upload", skipUpload))))
  }

  /** The option's name when its flag is set. */
  function Flagged(option: string, b: bool): seq<string> {
    if b then [option] else []
  }


  /** A `skip_` option contributes its name without the prefix exactly when it is set. */
  lemma SkipEntry(option: string, b: bool)
    requires 'k' !in option
    ensures SkippedName(SkipLocal(option, b)) == Flagged(option, b)
  {
    var s := SkipPrefix + option;
    assert s[..|SkipPrefix|] == SkipPrefix && s[|SkipPrefix|..] == option;
    assert PyText.StartsWith(s, SkipPrefix);
    assert SkipPrefix[1] == 'k';
    PyText.NotContainsForeignChar(option, SkipPrefix, 'k');
    PyText.ReplaceAbsent(option, SkipPrefix, "");
    assert PyText.Replace(s, SkipPrefix, "") == "" + PyText.Replace(option, SkipPrefix, "");
    assert "" + option == option;
  }

  lemma {:induction false} SkippedArgsConcat(a: seq<(string, PyValue)>, b: seq<(string, PyValue)>)
    ensures SkippedArgs(a + b) == SkippedArgs(a) + SkippedArgs(b)
  {
    if a == [] {
      assert a + b == b;
    } else {
      assert (a + b)[0] == a[0];
      assert (a + b)[1..] == a[1..] + b;
      SkippedArgsConcat(a[1..], b);
      var x, y, z := SkippedName(a[0]), SkippedArgs(a[1..]), SkippedArgs(b);
      assert x + (y + z) == (x + y) + z;
    }
  }

  /** The date, style and model never count as skipped. */
  lemma LeadingLocalsSkipNothing(theDate: Option<string>, style: Option<string>, model: Option<string>)
    ensures SkippedArgs([("the_date", OptionalStr(theDate)), ("style", OptionalStr(style)),
                         ("model", OptionalStr(model))]) == []
  {
    var head := [("the_date", OptionalStr(theDate)), ("style", OptionalStr(style)),
                 ("model", OptionalStr(model))];
    PyText.DiffersAt("the_date", SkipPrefix, 1);
    PyText.DiffersAt("style", SkipPrefix, 1);
    PyText.DiffersAt("model", SkipPrefix, 1);
    assert head[2..][0] == head[2] && head[2..][1..] == [];
    assert SkippedArgs(head[2..]) == [];
    assert head[1..][0] == head[1] && head[1..][1..] == head[2..];
    assert SkippedArgs(head[1..]) == [];
  }

  /** Neither the failure count nor the timer counts as skipped. */
  lemma TrailingLocalsSkipNothing(failedAttempts: int, t1: real)
    ensures SkippedArgs([("failed_attempts", PyInt(failedAttempts)), ("t1", PyFloat(t1))]) == []
  {
    var tail := [("failed_attempts", PyInt(failedAttempts)), ("t1", PyFloat(t1))];
    PyText.DiffersAt("failed_attempts", SkipPrefix, 1);
    assert tail[1..][0] == tail[1] && tail[1..][1..] == [];
    assert SkippedArgs(tail[1..]) == [];
  }

  lemma SkippedArgsCons(e: (string, PyValue), rest: seq<(string, PyValue)>)
    ensures SkippedArgs([e] + rest) == SkippedName(e) + SkippedArgs(rest)
  {
    assert ([e] + rest)[0] == e && ([e] + rest)[1..] == rest;
  }

  /** Five skip options in a row contribute their names in order. */
  lemma SkipLocalsListed(o0: string, o1: string, o2: string, o3: string, o4: string,
                         b0: bool, b1: bool, b2: bool, b3: bool, b4: bool)
    requires 'k' !in o0 && 'k' !in o1 && 'k' !in o2 && 'k' !in o3 && 'k' !in o4
    ensures SkippedArgs([SkipLocal(o0, b0), SkipLocal(o1, b1), SkipLocal(o2, b2),
                         SkipLocal(o3, b3), SkipLocal(o4, b4)])
            == Flagged(o0, b0) + (Flagged(o1, b1) + (Flagged(o2, b2) + (Flagged(o3, b3) + Flagged(o4, b4))))
  {
    var e0, e1, e2, e3, e4 := SkipLocal(o0, b0), SkipLocal(o1, b1), SkipLocal(o2, b2),
      SkipLocal(o3, b3), SkipLocal(o4, b4);
    SkipEntry(o0, b0);
    SkipEntry(o1, b1);
    SkipEntry(o2, b2);
    SkipEntry(o3, b3);
    SkipEntry(o4, b4);
    assert SkippedArgs([e4]) == Flagged(o4, b4) by {
      SkippedArgsCons(e4, []);
      assert SkippedName(e4) + [] == SkippedName(e4);
    }
    SkippedArgsCons(e3, [e4]);
    SkippedArgsCons(e2, [e3] + [e4]);
    SkippedArgsCons(e1, [e2] + ([e3] + [e4]));
    SkippedArgsCons(e0, [e1] + ([e2] + ([e3] + [e4])));
    assert [e0, e1, e2, e3, e4] == [e0] + ([e1] + ([e2] + ([e3] + [e4])));
  }

  /** `skipped_args` lists exactly the skip options that are true, without the prefix, in
      parameter order; the other locals never qualify. */
  lemma SkippedArgsExact(theDate: Option<string>, style: Option<string>, model: Option<string>,
                         skipCalendar: bool, skipHolidays: bool, skipSillyDays: bool,
                         skipNews: bool, skipUpload: bool, failedAttempts: int, t1: real)
    ensures SkippedArgs(MainLocals(theDate, style, model, skipCalendar, skipHolidays, skipSillyDays,
                                   skipNews, skipUpload, failedAttempts, t1))
            == SkipNames(skipCalendar, skipHolidays, skipSillyDays, skipNews, skipUpload)
  {
    var head := [("the_date", OptionalStr(theDate)), ("style", OptionalStr(style)),
                 ("model", OptionalStr(model))];
    var skips := [SkipLocal("calendar", skipCalendar), SkipLocal("holidays", skipHolidays),
                  SkipLocal("silly_days", skipSillyDays), SkipLocal("news", skipNews),
                  SkipLocal("upload", skipUpload)];
    var tail := [("failed_attempts", PyInt(failedAttempts)), ("t1", PyFloat(t1))];
    assert MainLocals(theDate, style, model, skipCalendar, skipHolidays, skipSillyDays,
                      skipNews, skipUpload, failedAttempts, t1) == head + skips + tail;
    var names := SkipNames(skipCalendar, skipHolidays, skipSillyDays, skipNews, skipUpload);
    assert SkippedArgs(skips) == names by {
      assert 'k' !in "calendar" && 'k' !in "holidays" && 'k' !in "silly_days";
      assert 'k' !in "news" && 'k' !in "upload";
      SkipLocalsListed("calendar", "holidays", "silly_days", "news", "upload",
                       skipCalendar, skipHolidays, skipSillyDays, skipNews, skipUpload);
    }
    assert SkippedArgs(head + skips) == names by {
      SkippedArgsConcat(head, skips);
      LeadingLocalsSkipNothing(theDate, style, model);
    }
    SkippedArgsConcat(head + skips, tail);
    TrailingLocalsSkipNothing(failedAttempts, t1);
    assert names + [] == names;
  }

  // ---------------------------------------------------------------------------
  // full_prompt in generate_images

  const FullScreen: string := ", no margins, full screen. "

  /** The prompt sent for both orientations: the style and the layout demand, then the
      text model's prompt. */
  function FullPrompt(style: string, dallePrompt: string): (r: string)
    ensures |r| == |style| + |FullScreen| + |dallePrompt|
    ensures PyText.StartsWith(r, style + FullScreen)
    ensures PyText.EndsWith(r, dallePrompt)
  {
    var r := style + FullScreen + dallePrompt;
    assert r[..|style + FullScreen|] == style + FullScreen;
    assert r[|r| - |dallePrompt|..] == dallePrompt;
    r
  }

  /** The prompt of a rerun keeps the caller's style through the fourth failure, and the
      fifth failure's rerun asks for the Bob Ross style instead. */
  lemma RetryPromptStyle(a: ImageArgs, failedAttempts: int, dallePrompt: string)
    requires 0 <= failedAttempts < MaxFailedAttempts
    ensures var r := OnImageFailure(a, failedAttempts);
      && r.Rerun?
      && (failedAttempts < MaxFailedAttempts - 1 ==>
            PyText.StartsWith(FullPrompt(r.args.style, dallePrompt), a.style + FullScreen))
      && (failedAttempts == MaxFailedAttempts - 1 ==>
            PyText.StartsWith(FullPrompt(r.args.style, dallePrompt), BobRoss + FullScreen))
  {
    var r := OnImageFailure(a, failedAttempts);
    assert AttemptChanges(failedAttempts + 1).Some?;
    assert r.Rerun?;
  }
}
