/** `timeParser`: a list of layouts tried in order against one string. The
    standard library's `time.Parse` for a single layout is not modelled; it
    is the parameter `parse`, a total function from layout and text to a
    time or an error. */
module TimeParsing {
  import opened Wrappers

  /** A point in time: a plain record standing for `time.Time`, whose
      fields no lemma relies on. */
  datatype Time = Time(unixSeconds: int, nanosecond: int, zoneOffsetSeconds: int)

  /** Stands for `time.Time{}`, January 1, year 1, 00:00:00 UTC. */
  const ZeroTime: Time := Time(-62135596800, 0, 0)

  /** `time.Parse` for one layout. */
  type LayoutParser = (string, string) -> Result<Time, Cause>

  /** Reference definition of the fallback parse: the first layout that
      parses wins; when all fail the answer is the zero time together with
      the error of the last layout; with no layouts it is the zero time and
      no error. */
  function FirstMatch(parse: LayoutParser, formats: seq<string>, s: string): (Time, Option<Cause>)
  {
    if formats == [] then (ZeroTime, None)
    else match parse(formats[0], s)
      case Ok(t) => (t, None)
      case Err(e) => if |formats| == 1 then (ZeroTime, Some(e)) else FirstMatch(parse, formats[1..], s)
  }

  /** When layout i is the first that parses, its time is the answer and no
      error is reported. */
  lemma {:induction false} FirstMatchFirstSuccess(parse: LayoutParser, formats: seq<string>, s: string, i: nat)
    requires i < |formats| && parse(formats[i], s).Ok?
    requires forall j :: 0 <= j < i ==> parse(formats[j], s).Err?
    ensures FirstMatch(parse, formats, s) == (parse(formats[i], s).value, None)
  {
    if i > 0 {
      assert parse(formats[0], s).Err?;
      FirstMatchFirstSuccess(parse, formats[1..], s, i - 1);
    }
  }

  /** When every layout fails, the answer is the zero time with the error of
      the last layout tried (none when there are no layouts). */
  lemma {:induction false} FirstMatchAllFail(parse: LayoutParser, formats: seq<string>, s: string)
    requires forall j :: 0 <= j < |formats| ==> parse(formats[j], s).Err?
    ensures FirstMatch(parse, formats, s) ==
      (ZeroTime, if formats == [] then None else Some(parse(formats[|formats| - 1], s).error))
  {
    if |formats| > 1 {
      assert parse(formats[0], s).Err?;
      FirstMatchAllFail(parse, formats[1..], s);
    }
  }

  /** An error is reported exactly when there is at least one layout and no
      layout parses. */
  lemma {:induction false} FirstMatchFails(parse: LayoutParser, formats: seq<string>, s: string)
    ensures FirstMatch(parse, formats, s).1.Some? <==>
      formats != [] && forall j :: 0 <= j < |formats| ==> parse(formats[j], s).Err?
  {
    if formats != [] && parse(formats[0], s).Err? && |formats| > 1 {
      FirstMatchFails(parse, formats[1..], s);
      forall j | 0 <= j < |formats| && parse(formats[j], s).Ok?
        ensures FirstMatch(parse, formats, s).1.None?
      {
        assert parse(formats[1..][j - 1], s).Ok?;
      }
    }
  }

  /** `timeParser`; `newTimeParser(formats...)` is the constructor. The
      layout list is never changed after construction. */
  datatype TimeParser = TimeParser(formats: seq<string>)
  {
    /** `(*timeParser).Parse`: tries the layouts in order, remembering the
        last error, and stops at the first success. */
    method Parse(parse: LayoutParser, s: string) returns (t: Time, err: Option<Cause>)
      ensures (t, err) == FirstMatch(parse, formats, s)
    {
      var lastErr: Option<Cause> := None;
      var i := 0;
      while i < |formats|
        invariant 0 <= i <= |formats|
        invariant i < |formats| ==> FirstMatch(parse, formats, s) == FirstMatch(parse, formats[i..], s)
        invariant i == |formats| ==> FirstMatch(parse, formats, s) == (ZeroTime, lastErr)
      {
        var r := parse(formats[i], s);
        if r.Ok? {
          return r.value, None;
        }
        lastErr := Some(r.error);
        assert formats[i..][1..] == formats[i + 1..];
        i := i + 1;
      }
      return ZeroTime, lastErr;
    }
  }

  /** The three layouts the callback tries on a message's Date header, in
      order: numeric zone offset; numeric offset followed by a parenthesised
      zone name; zone name alone. */
  const DateLayouts: seq<string> := [
    "Mon, 2 Jan 2006 15:04:05 -0700",
    "Mon, 2 Jan 2006 15:04:05 -0700 (MST)",
    "Mon, 2 Jan 2006 15:04:05 MST"
  ]
}
