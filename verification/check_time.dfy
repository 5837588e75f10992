/** The decision of the time-window check: whether the current time of day lies strictly
    inside a window given by its beginning and end, where a window whose end comes
    before its beginning runs on past midnight.

    Times of day are microseconds since midnight, the precision of the clock read; the
    beginning and end, parsed from `%H:%M:%S`, are whole seconds.
 */
module CheckTime {

  /** Microseconds in a day. */
  const Day := 86_400_000_000

  predicate OfDay(t: int) { 0 <= t < Day }

  /** How far the clock hands move forward to get from `a` to `b`. */
  function Forward(a: int, b: int): (d: int)
    requires OfDay(a) && OfDay(b)
    ensures 0 <= d < Day
  {
    if a <= b then b - a else b - a + Day
  }

  /** `now` is passed strictly after leaving `begin` and strictly before reaching `end`,
      going forward around the clock; a window whose ends coincide is empty. */
  predicate InWindow(begin: int, end: int, now: int)
    requires OfDay(begin) && OfDay(end) && OfDay(now)
  {
    0 < Forward(begin, now) < Forward(begin, end)
  }

  /** The exit status of the check: 0 inside the window, 1 outside. */
  function ExitStatus(begin: int, end: int, now: int): (status: int)
    ensures status == 0 || status == 1
    ensures OfDay(begin) && OfDay(end) && OfDay(now) ==> (status == 0 <==> InWindow(begin, end, now))
  {
    if end < begin && (now > begin || now < end) then 0
    else if now > begin && now < end then 0
    else 1
  }

  /** The three kinds of window: an ordinary one excludes both ends, one running past
      midnight holds everything after its beginning or before its end, and one whose
      ends coincide holds nothing. */
  lemma {:induction false} WindowCases(begin: int, end: int, now: int)
    requires OfDay(begin) && OfDay(end) && OfDay(now)
    ensures begin <= end ==> (InWindow(begin, end, now) <==> begin < now < end)
    ensures end < begin ==> (InWindow(begin, end, now) <==> now > begin || now < end)
    ensures begin == end ==> !InWindow(begin, end, now)
  {
    if end < begin {
      assert Forward(begin, end) == end - begin + Day;
    }
  }

  /** Away from its two ends, a time lies in exactly one of a window and the window with
      its ends swapped. */
  lemma {:induction false} WindowComplement(begin: int, end: int, now: int)
    requires OfDay(begin) && OfDay(end) && OfDay(now)
    requires begin != end && now != begin && now != end
    ensures InWindow(begin, end, now) <==> !InWindow(end, begin, now)
  {
    WindowCases(begin, end, now);
    WindowCases(end, begin, now);
  }
}
