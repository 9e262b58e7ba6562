/** calculateSendingWindow (data.js): the delivery window of a scheduled
    letter, chosen by a coarse delay tier and anchored at the current time. */
module SendingWindow {
  import opened Letters

  /** One calendar day in milliseconds; adding days is adding whole days. */
  const DayMs := 86_400_000

  /** The tiers the write page offers. */
  predicate KnownTier(option: string) {
    option == "1-3" || option == "3-7" || option == "8-14"
  }

  /** The day offsets of a tier; every unknown tier falls back to "3-7". */
  function TierDays(option: string): (days: (nat, nat))
    ensures 0 < days.0 < days.1
    ensures !KnownTier(option) ==> days == (3, 7)
  {
    match option
    case "1-3" => (1, 3)
    case "3-7" => (3, 7)
    case "8-14" => (8, 14)
    case _ => (3, 7)
  }

  datatype Window = Window(start: Time, end: Time)

  /** calculateSendingWindow, with the clock reading as a parameter. */
  function CalculateSendingWindow(option: string, now: Time): (w: Window)
    // the window opens strictly after now and closes strictly after it opens
    ensures now < w.start < w.end
    // both bounds lie a whole number of days after now
    ensures (w.start - now) % DayMs == 0 && (w.end - now) % DayMs == 0
  {
    var (daysStart, daysEnd) := TierDays(option);
    Window(now + daysStart * DayMs, now + daysEnd * DayMs)
  }

  /** The tier table, spelled out, with the fallback for every other string. */
  lemma TierTable(option: string, now: Time)
    ensures option == "1-3" ==> CalculateSendingWindow(option, now) == Window(now + DayMs, now + 3 * DayMs)
    ensures option == "3-7" ==> CalculateSendingWindow(option, now) == Window(now + 3 * DayMs, now + 7 * DayMs)
    ensures option == "8-14" ==> CalculateSendingWindow(option, now) == Window(now + 8 * DayMs, now + 14 * DayMs)
    ensures !KnownTier(option) ==> CalculateSendingWindow(option, now) == CalculateSendingWindow("3-7", now)
  {
  }

  /** The window is as wide as the tier's spread: 2, 4 or 6 days. */
  lemma WindowWidth(option: string, now: Time)
    ensures var w := CalculateSendingWindow(option, now);
      w.end - w.start == (if option == "1-3" then 2 else if option == "8-14" then 6 else 4) * DayMs
  {
  }

  /** Windows computed at different instants for the same tier are the same
      window shifted by the difference. */
  lemma WindowShifts(option: string, now: Time, delta: int)
    ensures CalculateSendingWindow(option, now + delta).start == CalculateSendingWindow(option, now).start + delta
    ensures CalculateSendingWindow(option, now + delta).end == CalculateSendingWindow(option, now).end + delta
  {
  }
}
