/**
  The one pure helper of promote.py: reading the date out of a staged file name such as
  "landscape-2023-12-03T01/50/17.205070Z", by slicing between the first '-' and the first
  'T' with Python's slice semantics (so a missing character, found as -1, still yields a
  slice).
*/
module Promote {
  import PyText

  /** `extract_date`: the text after the first '-' and before the first 'T'. It is never
      longer than the name and never holds a 'T', since a stop at the first 'T' (or, with
      none, anywhere) leaves every 'T' outside the slice. */
  function ExtractDate(filename: string): (r: string)
    ensures |r| <= |filename|
    ensures 'T' !in r
  {
    var start, stop := PyText.Find(filename, '-') + 1, PyText.Find(filename, 'T');
    var r := PyText.Slice(filename, start, stop);
    assert 'T' !in r by {
      var n := |filename|;
      var lo, hi := PyText.ClampIndex(start, n), PyText.ClampIndex(stop, n);
      if stop >= 0 {
        assert hi == stop;
        assert forall i :: lo <= i < hi ==> filename[i] in filename[..stop];
      }
    }
    r
  }

  /** Whatever the name, the result is one contiguous run of it. */
  lemma ExtractDateContiguous(filename: string)
    ensures exists lo, hi :: 0 <= lo <= hi <= |filename| && ExtractDate(filename) == filename[lo..hi]
  {
    PyText.SliceIsContiguous(filename, PyText.Find(filename, '-') + 1, PyText.Find(filename, 'T'));
  }

  /** With a '-' before the first 'T', the result is exactly what lies between them. */
  lemma ExtractDateBetween(filename: string, h: nat, t: nat)
    requires h < t < |filename|
    requires filename[h] == '-' && '-' !in filename[..h]
    requires filename[t] == 'T' && 'T' !in filename[..t]
    ensures ExtractDate(filename) == filename[h + 1..t]
  {
    PyText.FindFirst(filename, '-', h);
    PyText.FindFirst(filename, 'T', t);
  }

  /** Names of the shape "<kind>-<date>T<time>" give back the date, when neither the kind
      nor the date holds a 'T' and the kind holds no '-' (for instance kind "landscape",
      date "2023-12-03", time "01/50/17.205070Z"). */
  lemma ExtractDateOfStagedName(kind: string, date: string, time: string)
    requires '-' !in kind && 'T' !in kind && 'T' !in date
    ensures ExtractDate(kind + "-" + date + "T" + time) == date
  {
    var name := kind + "-" + date + "T" + time;
    var h, t := |kind|, |kind| + 1 + |date|;
    assert name[h] == '-' && name[..h] == kind;
    assert name[t] == 'T' && name[..t] == kind + "-" + date;
    ExtractDateBetween(name, h, t);
    assert name[h + 1..t] == date;
  }

  /** The usage example of promote.py, "landscape-2023-12-03T01/50/17.205070Z", gives back
      its date. The name is written in its pieces so that the proof can use the lemma above. */
  lemma ExtractDateUsageExample()
    ensures ExtractDate("landscape" + "-" + "2023-12-03" + "T" + "01/50/17.205070Z") == "2023-12-03"
  {
    assert '-' !in "landscape" && 'T' !in "landscape" && 'T' !in "2023-12-03";
    ExtractDateOfStagedName("landscape", "2023-12-03", "01/50/17.205070Z");
  }

  /** Without a '-', `find` gives -1 and the slice starts at 0. */
  lemma ExtractDateNoHyphen(filename: string)
    requires '-' !in filename
    ensures ExtractDate(filename) == PyText.Slice(filename, 0, PyText.Find(filename, 'T'))
  {
    assert PyText.Find(filename, '-') == -1;
  }

  /** Without a 'T', the stop index -1 drops the last character of the name. */
  lemma ExtractDateNoT(filename: string)
    requires 'T' !in filename
    ensures var h := PyText.Find(filename, '-');
      ExtractDate(filename) == if h + 1 < |filename| - 1 then filename[h + 1..|filename| - 1] else []
  {
    NoTFound(filename);
    StopsAtMinusOne(filename);
    PyText.SliceToLast(filename, PyText.Find(filename, '-') + 1);
  }

  lemma NoTFound(filename: string)
    requires 'T' !in filename
    ensures PyText.Find(filename, 'T') == -1
  {
  }

  lemma StopsAtMinusOne(filename: string)
    requires PyText.Find(filename, 'T') == -1
    ensures ExtractDate(filename) == PyText.Slice(filename, PyText.Find(filename, '-') + 1, -1)
  {
  }

  /** A first 'T' at or before the first '-' leaves nothing between them. */
  lemma ExtractDateTFirst(filename: string)
    requires '-' in filename && 'T' in filename
    requires PyText.Find(filename, 'T') <= PyText.Find(filename, '-')
    ensures ExtractDate(filename) == []
  {
    var h, t, n := PyText.Find(filename, '-'), PyText.Find(filename, 'T'), |filename|;
    assert PyText.ClampIndex(h + 1, n) == h + 1;
    assert PyText.ClampIndex(t, n) == t;
  }
}
