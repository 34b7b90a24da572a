/** Calendar dates as day ordinals, so that `timedelta(1)` is `+ 1`, and the
    ISO 8601 rendering of a date kept abstract. */
module Dates {
  import opened Wrappers
  import opened Text

  /** A calendar date, as its day ordinal. */
  type Date = int

  /** `date.isoformat()` and `date.fromisoformat(s)` as a pair of functions. */
  datatype DateFormat = DateFormat(render: Date -> string, parse: string -> Option<Date>)

  /** What the agenda relies on in ISO 8601 `YYYY-MM-DD` dates: parsing a rendered
      date gives the date back, and a rendered date is a non-empty run of
      non-whitespace characters. */
  ghost predicate IsoLike(fmt: DateFormat) {
    forall d :: fmt.parse(fmt.render(d)) == Some(d) && fmt.render(d) != [] && NoSpace(fmt.render(d))
  }

  /** The earlier of two dates. */
  function Min(x: Date, y: Date): Date {
    if x < y then x else y
  }

  /** The later of two dates. */
  function Max(x: Date, y: Date): Date {
    if x < y then y else x
  }

  /** `date_range_inclusive(start_date, end_date)`: every date from `start` to `end`,
      both included, counting up when `start <= end` and down otherwise. */
  method DateRangeInclusive(start: Date, end: Date) returns (l: seq<Date>)
    ensures |l| == (if start <= end then end - start else start - end) + 1
    ensures l[0] == start && l[|l| - 1] == end
    ensures start <= end ==> forall i :: 0 <= i < |l| ==> l[i] == start + i
    ensures start > end ==> forall i :: 0 <= i < |l| ==> l[i] == start - i
    ensures forall i :: 0 <= i < |l| - 1 ==> l[i + 1] == l[i] + (if start <= end then 1 else -1)
  {
    l := [start];
    if start <= end {
      while l[|l| - 1] < end
        invariant 1 <= |l| <= end - start + 1
        invariant forall i :: 0 <= i < |l| ==> l[i] == start + i
        decreases end - l[|l| - 1]
      {
        l := l + [l[|l| - 1] + 1];
      }
    } else {
      while l[|l| - 1] > end
        invariant 1 <= |l| <= start - end + 1
        invariant forall i :: 0 <= i < |l| ==> l[i] == start - i
        decreases l[|l| - 1] - end
      {
        l := l + [l[|l| - 1] - 1];
      }
    }
  }
}
