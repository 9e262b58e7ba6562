/** The two letter transitions of the app's pages (app.js): composing a
    letter on the write page, and keeping a scheduled letter private on the
    letter page. */
module Pages {
  import opened Letters
  import opened SendingWindow
  import opened Storage
  import opened FuzzySend
  import opened SampleData

  // ---------------------------------------------------------------------
  // The write page's submit handler
  // ---------------------------------------------------------------------

  /** The checked action radio, or 'schedule' when none is checked. */
  function ChosenAction(checked: Field<string>): (action: string)
    ensures HasText(checked) ==> action == checked.value
    ensures !HasText(checked) ==> action == "schedule"
  {
    TextOr(checked, "schedule")
  }

  /** The human-readable window stored with the letter. */
  function WindowLabel(action: string, windowOption: Field<string>): (text: Field<string>)
    // a label exactly when scheduling with a tier the page knows
    ensures text.Value? <==> action == "schedule" && HasText(windowOption) && KnownTier(windowOption.value)
    // the label names the tier's day range
    ensures text.Value? ==> text.value == "within " + windowOption.value + " days"
    // otherwise the label is null
    ensures !text.Value? ==> text == Null
  {
    if action == "schedule" && HasText(windowOption) then
      match windowOption.value
      case "1-3" => Value("within 1-3 days")
      case "3-7" => Value("within 3-7 days")
      case "8-14" => Value("within 8-14 days")
      case _ => Null
    else Null
  }

  /** The status a new letter is created with. */
  function InitialStatus(action: string): (s: Status)
    ensures s == Draft <==> action == "draft"
    ensures s == Draft || s == Scheduled
  {
    if action == "draft" then Draft else Scheduled
  }

  /** Whether the submitted letter gets a sending window. */
  predicate Schedules(action: string, windowOption: Field<string>) {
    action == "schedule" && HasText(windowOption)
  }

  /** The letter the submit handler stores. The generated id and the clock
      reading (shared by createLetter and calculateSendingWindow) are
      parameters. */
  function ComposeLetter(id: string, now: Time, title: string, body: string,
                         recipientType: string, contactId: string, channel: string,
                         checkedAction: Field<string>, windowOption: Field<string>): (l: Letter)
    ensures l.id == id && l.createdAt == Value(now) && l.lastEditedAt == Value(now) && l.sentAt == Null
    // the form's fields, with createLetter's defaults for empty ones
    ensures l.title == title && l.body == body && l.contactId == contactId
    ensures l.recipientType == (if recipientType == "" then "human" else recipientType)
    ensures l.channel == (if channel == "" then "email" else channel)
    ensures l.reflectionNotes == "" && !l.isPenpalReply
    // a draft when the action is 'draft', scheduled for every other action
    ensures l.status == InitialStatus(ChosenAction(checkedAction))
    ensures l.status == Draft <==> ChosenAction(checkedAction) == "draft"
    ensures l.scheduledWindow == WindowLabel(ChosenAction(checkedAction), windowOption)
    // a scheduled window is the tier's window, opening after now
    ensures Schedules(ChosenAction(checkedAction), windowOption) ==>
      var w := CalculateSendingWindow(windowOption.value, now);
      l.scheduledWindowStart == Value(w.start) && l.scheduledWindowEnd == Value(w.end) &&
      now < w.start < w.end
    // otherwise both bounds are null
    ensures !Schedules(ChosenAction(checkedAction), windowOption) ==>
      l.scheduledWindowStart == Null && l.scheduledWindowEnd == Null
  {
    var action := ChosenAction(checkedAction);
    var letter := CreateLetter(
      NoInput.(title := Value(title), body := Value(body), recipientType := Value(recipientType),
               contactId := Value(contactId), channel := Value(channel),
               status := Value(InitialStatus(action)),
               scheduledWindow := WindowLabel(action, windowOption)),
      id, now);
    if Schedules(action, windowOption) then
      var w := CalculateSendingWindow(windowOption.value, now);
      letter.(scheduledWindowStart := Value(w.start), scheduledWindowEnd := Value(w.end))
    else letter
  }

  /** The submit handler from the point the form is read: compose the letter
      and store it with updateLetter. */
  method SubmitLetter(store: LetterStore, id: string, now: Time, title: string, body: string,
                      recipientType: string, contactId: string, channel: string,
                      checkedAction: Field<string>, windowOption: Field<string>)
    modifies store
    ensures store.letters ==
      Upsert(old(store.letters), ComposeLetter(id, now, title, body, recipientType, contactId,
                                               channel, checkedAction, windowOption))
    ensures store.contacts == old(store.contacts) && store.letterWrites == old(store.letterWrites) + 1
    ensures old(store.Valid()) ==> store.Valid()
  {
    var letter := ComposeLetter(id, now, title, body, recipientType, contactId, channel,
                                checkedAction, windowOption);
    store.UpdateLetter(letter);
  }

  /** A letter scheduled on the write page at t0 with the 3-7 day tier is
      left alone by a pass one day later and sent by a pass eight days later,
      whatever is drawn. */
  lemma ScheduledLetterScenario(id: string, t0: Time, title: string, body: string,
                                recipientType: string, contactId: string, channel: string,
                                draw: real)
    ensures var l := ComposeLetter(id, t0, title, body, recipientType, contactId, channel,
                                   Value("schedule"), Value("3-7"));
      l.status == Scheduled &&
      l.scheduledWindowStart == Value(t0 + 3 * DayMs) && l.scheduledWindowEnd == Value(t0 + 7 * DayMs) &&
      Decide(l, t0 + DayMs, draw) == l &&
      Decide(l, t0 + 8 * DayMs, draw) == l.(status := Sent, sentAt := Value(t0 + 8 * DayMs))
  {
    TierTable("3-7", t0);
  }

  /** A letter composed on the write page is never sent before its window
      opens and always sent by the first pass at or after its window closes. */
  lemma ComposedLetterReleaseBounds(id: string, t0: Time, title: string, body: string,
                                    recipientType: string, contactId: string, channel: string,
                                    windowOption: string, now: Time, draw: real)
    requires windowOption != ""
    ensures var l := ComposeLetter(id, t0, title, body, recipientType, contactId, channel,
                                   Value("schedule"), Value(windowOption));
      var w := CalculateSendingWindow(windowOption, t0);
      (now < w.start ==> Decide(l, now, draw) == l) &&
      (now >= w.end ==> Decide(l, now, draw) == l.(status := Sent, sentAt := Value(now)))
  {
  }

  /** A draft is never sent by the pass. */
  lemma DraftNeverSent(id: string, t0: Time, title: string, body: string,
                       recipientType: string, contactId: string, channel: string,
                       windowOption: Field<string>, now: Time, draw: real)
    ensures var l := ComposeLetter(id, t0, title, body, recipientType, contactId, channel,
                                   Value("draft"), windowOption);
      l.status == Draft && Decide(l, now, draw) == l
  {
  }

  // ---------------------------------------------------------------------
  // The letter page's "Keep to Myself" action
  // ---------------------------------------------------------------------

  /** The letter as the keep handler rewrites it. */
  function KeepPrivate(l: Letter): (k: Letter)
    ensures k.status == Kept
    ensures k.scheduledWindowStart == Null && k.scheduledWindowEnd == Null && k.scheduledWindow == Null
    // nothing else changes
    ensures k.(status := l.status, scheduledWindowStart := l.scheduledWindowStart,
               scheduledWindowEnd := l.scheduledWindowEnd, scheduledWindow := l.scheduledWindow) == l
  {
    l.(status := Kept, scheduledWindowStart := Null, scheduledWindowEnd := Null, scheduledWindow := Null)
  }

  /** The keep handler: on confirmation, rewrite the letter and store it;
      otherwise do nothing. */
  method KeepToMyself(store: LetterStore, letter: Letter, confirmed: bool)
    modifies store
    ensures confirmed ==> store.letters == Upsert(old(store.letters), KeepPrivate(letter)) &&
                          store.letterWrites == old(store.letterWrites) + 1
    ensures !confirmed ==> store.letters == old(store.letters) && store.letterWrites == old(store.letterWrites)
    ensures store.contacts == old(store.contacts)
    ensures old(store.Valid()) ==> store.Valid()
  {
    if confirmed {
      var kept := KeepPrivate(letter);
      store.UpdateLetter(kept);
    }
  }

  /** A kept letter is out of the pass's reach for good. */
  lemma KeptNeverSent(l: Letter, now: Time, draw: real)
    ensures Decide(KeepPrivate(l), now, draw) == KeepPrivate(l)
  {
  }

  /** A kept letter whose id is a sample's stays kept when initializeData
      refreshes it, but takes back the sample's label and window bounds:
      the null ones written by the keep handler are falsy. */
  lemma KeptSampleRegainsLabel(l: Letter, d: Letter)
    ensures var m := Refresh(KeepPrivate(l), d);
      m.status == Kept && m.sentAt == l.sentAt &&
      m.scheduledWindow == d.scheduledWindow &&
      m.scheduledWindowStart == d.scheduledWindowStart && m.scheduledWindowEnd == d.scheduledWindowEnd
  {
  }

  /** Keeping the scheduled sample letter l1 and reloading the app gives
      it back its label "within 3-7 days" and leaves its bounds missing. */
  lemma KeptSampleL1Relabelled(l: Letter)
    ensures var m := Refresh(KeepPrivate(l), DefaultLetters[0]);
      m.status == Kept && m.scheduledWindow == Value("within 3-7 days") &&
      m.scheduledWindowStart == Absent && m.scheduledWindowEnd == Absent
  {
    KeptSampleRegainsLabel(l, DefaultLetters[0]);
  }

  /** Keeping a letter and then looking it up finds it kept. */
  lemma KeepThenLookup(ls: seq<Letter>, l: Letter)
    ensures GetLetterById(Upsert(ls, KeepPrivate(l)), l.id) == Some(KeepPrivate(l))
  {
    UpsertThenGet(ls, KeepPrivate(l));
  }
}
