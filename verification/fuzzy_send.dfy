/** The fuzzy send of app.js: one pass over every stored letter that sends
    each scheduled letter once its window has closed, and with probability
    0.3 while its window is open. */
module FuzzySend {
  import opened Letters
  import opened SampleData
  import opened Storage

  /** Math.random() < 0.3 decides an early release. */
  const ReleaseChance: real := 0.3

  /** The instant `new Date(field)` denotes: a missing property gives an
      Invalid Date (None), null gives the epoch, a stored time gives itself. */
  function DateOf(f: Field<Time>): (d: Option<Time>)
    ensures d.None? <==> f.Absent?
    ensures f.Null? ==> d == Some(0)
    ensures f.Value? ==> d == Some(f.value)
  {
    match f
    case Absent => None
    case Null => Some(0)
    case Value(t) => Some(t)
  }

  /** `now >= new Date(field)`: false whenever the date is invalid. */
  predicate Reached(now: Time, f: Field<Time>)
    // a missing bound is never reached, a null one from the epoch on
    ensures Reached(now, f) <==> (f.Null? && now >= 0) || (f.Value? && now >= f.value)
  {
    var d := DateOf(f);
    d.Some? && now >= d.value
  }

  /** The letters the pass considers: scheduled and without a sent time. */
  predicate Pending(l: Letter)
    // `!letter.sentAt`: a missing or null sent time, never a stored one
    ensures Pending(l) <==> l.status == Scheduled && (l.sentAt.Absent? || l.sentAt.Null?)
  {
    l.status == Scheduled && !l.sentAt.Value?
  }

  /** The transition the pass applies: status 'sent', sentAt now. */
  function Deliver(l: Letter, now: Time): (s: Letter)
    ensures s.status == Sent && s.sentAt == Value(now)
    // nothing else changes
    ensures s.(status := l.status, sentAt := l.sentAt) == l
  {
    l.(status := Sent, sentAt := Value(now))
  }

  /** What the pass does to one letter, given the clock and the random
      draw made for it. */
  function Decide(l: Letter, now: Time, draw: real): (r: Letter)
    // a letter either stays as it is or is delivered now
    ensures r == l || r == Deliver(l, now)
    // it changes exactly when it is pending and its window has closed, or
    // its window is open and the draw falls under the release chance
    ensures r != l <==>
      Pending(l) && (Reached(now, l.scheduledWindowEnd) ||
                     (Reached(now, l.scheduledWindowStart) && draw < ReleaseChance))
  {
    if Pending(l) then
      if Reached(now, l.scheduledWindowEnd) then Deliver(l, now)
      else if Reached(now, l.scheduledWindowStart) then
        if draw < ReleaseChance then Deliver(l, now) else l
      else l
    else l
  }

  /** The pass over a whole collection; draws[i] is the random value drawn
      for the letter at position i. */
  function ReleasePass(ls: seq<Letter>, now: Time, draws: seq<real>): (r: seq<Letter>)
    requires |draws| == |ls|
    // same length, same order, same ids
    ensures |r| == |ls| && forall i :: 0 <= i < |ls| ==> r[i].id == ls[i].id
    // only status and sentAt may change
    ensures forall i :: 0 <= i < |ls| ==>
      r[i].(status := ls[i].status, sentAt := ls[i].sentAt) == ls[i]
  {
    seq(|ls|, i requires 0 <= i < |ls| => Decide(ls[i], now, draws[i]))
  }

  /** The loop of checkAndSendLetters, on the loaded collection: returns the
      collection after the pass and whether any letter changed. */
  method SendDue(letters: seq<Letter>, now: Time, draws: seq<real>)
    returns (result: seq<Letter>, updated: bool)
    requires |draws| == |letters|
    ensures result == ReleasePass(letters, now, draws)
    ensures updated <==> result != letters
  {
    result := letters;
    updated := false;
    var i := 0;
    while i < |letters|
      invariant 0 <= i <= |letters| && |result| == |letters|
      invariant forall j :: 0 <= j < i ==> result[j] == Decide(letters[j], now, draws[j])
      invariant forall j :: i <= j < |letters| ==> result[j] == letters[j]
      invariant updated <==> exists j :: 0 <= j < i && result[j] != letters[j]
    {
      var letter := result[i];
      if letter.status == Scheduled && !letter.sentAt.Value? {
        if Reached(now, letter.scheduledWindowEnd) {
          result := result[i := Deliver(letter, now)];
          updated := true;
        } else if Reached(now, letter.scheduledWindowStart) {
          if draws[i] < ReleaseChance {
            result := result[i := Deliver(letter, now)];
            updated := true;
          }
        }
      }
      i := i + 1;
    }
    assert updated <==> exists j :: 0 <= j < |letters| && result[j] != letters[j];
  }

  /** checkAndSendLetters: load the letters, run the pass, and save only
      when some letter changed. The clock and the random draws are
      parameters. */
  method CheckAndSendLetters(store: LetterStore, now: Time, draws: seq<real>)
    requires |draws| == |store.letters|
    modifies store
    ensures store.letters == ReleasePass(old(store.letters), now, draws)
    ensures store.letterWrites == old(store.letterWrites) + (if store.letters != old(store.letters) then 1 else 0)
    ensures store.contacts == old(store.contacts)
    ensures old(store.Valid()) ==> store.Valid()
  {
    var letters := store.letters;
    var updated;
    letters, updated := SendDue(letters, now, draws);
    if updated {
      store.SaveLetters(letters);
    }
  }

  // ---------------------------------------------------------------------
  // What one pass does to each letter
  // ---------------------------------------------------------------------

  /** A scheduled, unsent letter whose window end has passed is sent now,
      whatever was drawn for it. */
  lemma DeadlineForcesSend(ls: seq<Letter>, now: Time, draws: seq<real>, i: nat, windowEnd: Time)
    requires |draws| == |ls| && i < |ls|
    requires ls[i].status == Scheduled && !ls[i].sentAt.Value?
    requires ls[i].scheduledWindowEnd == Value(windowEnd) && now >= windowEnd
    ensures ReleasePass(ls, now, draws)[i] == ls[i].(status := Sent, sentAt := Value(now))
  {
  }

  /** Inside an open window, a scheduled, unsent letter is sent now exactly
      when its draw is under 0.3, and is otherwise left as it is. */
  lemma OpenWindowSendsOnDraw(ls: seq<Letter>, now: Time, draws: seq<real>, i: nat,
                              windowStart: Time, windowEnd: Time)
    requires |draws| == |ls| && i < |ls|
    requires ls[i].status == Scheduled && !ls[i].sentAt.Value?
    requires ls[i].scheduledWindowStart == Value(windowStart) && ls[i].scheduledWindowEnd == Value(windowEnd)
    requires windowStart <= now < windowEnd
    ensures draws[i] < 0.3 ==> ReleasePass(ls, now, draws)[i] == ls[i].(status := Sent, sentAt := Value(now))
    ensures draws[i] >= 0.3 ==> ReleasePass(ls, now, draws)[i] == ls[i]
  {
  }

  /** Before its window opens, a letter is left exactly as it is. */
  lemma BeforeWindowUnchanged(ls: seq<Letter>, now: Time, draws: seq<real>, i: nat,
                              windowStart: Time, windowEnd: Time)
    requires |draws| == |ls| && i < |ls|
    requires ls[i].scheduledWindowStart == Value(windowStart) && ls[i].scheduledWindowEnd == Value(windowEnd)
    requires windowStart <= windowEnd && now < windowStart
    ensures ReleasePass(ls, now, draws)[i] == ls[i]
  {
  }

  /** Letters that are not scheduled, or already have a sent time, are never
      modified. */
  lemma OnlyPendingLettersChange(ls: seq<Letter>, now: Time, draws: seq<real>)
    requires |draws| == |ls|
    ensures forall i :: 0 <= i < |ls| && !Pending(ls[i]) ==> ReleasePass(ls, now, draws)[i] == ls[i]
    ensures forall i :: 0 <= i < |ls| && ReleasePass(ls, now, draws)[i] != ls[i] ==>
      ls[i].status == Scheduled && ReleasePass(ls, now, draws)[i] == ls[i].(status := Sent, sentAt := Value(now))
  {
  }

  /** A pass in which no window has closed and every draw is at least 0.3
      changes nothing, so checkAndSendLetters writes nothing. */
  lemma QuietPassChangesNothing(ls: seq<Letter>, now: Time, draws: seq<real>)
    requires |draws| == |ls|
    requires forall i :: 0 <= i < |ls| ==> !Reached(now, ls[i].scheduledWindowEnd) && draws[i] >= 0.3
    ensures ReleasePass(ls, now, draws) == ls
  {
  }

  /** Repeating a pass at the same instant with the same draws gives the same
      collection: a sent letter is no longer considered, and a letter left
      alone is left alone again. */
  lemma {:induction false} PassIdempotent(ls: seq<Letter>, now: Time, draws: seq<real>)
    requires |draws| == |ls|
    ensures ReleasePass(ReleasePass(ls, now, draws), now, draws) == ReleasePass(ls, now, draws)
  {
    var r := ReleasePass(ls, now, draws);
    forall i | 0 <= i < |ls| ensures Decide(r[i], now, draws[i]) == r[i] {
      assert r[i] == Decide(ls[i], now, draws[i]);
    }
  }

  /** A letter sent by the pass was sent no earlier than its window start,
      provided its window is well formed. */
  lemma SentWithinWindow(ls: seq<Letter>, now: Time, draws: seq<real>, i: nat,
                         windowStart: Time, windowEnd: Time)
    requires |draws| == |ls| && i < |ls|
    requires ls[i].scheduledWindowStart == Value(windowStart) && ls[i].scheduledWindowEnd == Value(windowEnd)
    requires windowStart <= windowEnd
    requires ReleasePass(ls, now, draws)[i] != ls[i]
    ensures ReleasePass(ls, now, draws)[i].sentAt == Value(now) && windowStart <= now
  {
  }

  /** The pass keeps every sent letter with a sent time: it only ever moves a
      letter from scheduled to sent, stamping it. */
  lemma PassKeepsSentStamped(ls: seq<Letter>, now: Time, draws: seq<real>)
    requires |draws| == |ls|
    requires forall i :: 0 <= i < |ls| && ls[i].status == Sent ==> ls[i].sentAt.Value?
    ensures forall i :: 0 <= i < |ls| && ReleasePass(ls, now, draws)[i].status == Sent ==>
      ReleasePass(ls, now, draws)[i].sentAt.Value?
    ensures forall i :: 0 <= i < |ls| && ls[i].status == Sent ==> ReleasePass(ls, now, draws)[i] == ls[i]
  {
  }

  /** A pass never breaks the uniqueness of ids. */
  lemma PassKeepsUnique(ls: seq<Letter>, now: Time, draws: seq<real>)
    requires |draws| == |ls| && UniqueIds(ls)
    ensures UniqueIds(ReleasePass(ls, now, draws))
  {
  }

  // ---------------------------------------------------------------------
  // Letters whose window is not set
  // ---------------------------------------------------------------------

  /** A scheduled letter with neither window bound stored is never sent:
      both comparisons are made against an Invalid Date. */
  lemma MissingWindowNeverSent(l: Letter, now: Time, draw: real)
    requires l.scheduledWindowStart.Absent? && l.scheduledWindowEnd.Absent?
    ensures Decide(l, now, draw) == l
  {
  }

  /** A scheduled, unsent letter whose window bounds are null is sent by any
      pass at or after the epoch: null reads as the epoch. */
  lemma NullWindowSentAtOnce(l: Letter, now: Time, draw: real)
    requires Pending(l) && l.scheduledWindowEnd.Null? && now >= 0
    ensures Decide(l, now, draw) == Deliver(l, now)
  {
  }

  /** The two scheduled sample letters store no window bounds, so a pass over
      the sample letters never changes them. */
  lemma SamplesNeverSent(now: Time, draws: seq<real>)
    requires |draws| == |DefaultLetters|
    ensures ReleasePass(DefaultLetters, now, draws) == DefaultLetters
  {
    forall i | 0 <= i < |DefaultLetters|
      ensures Decide(DefaultLetters[i], now, draws[i]) == DefaultLetters[i]
    {
      assert DefaultLetters[i].scheduledWindowEnd.Absent? && DefaultLetters[i].scheduledWindowStart.Absent?;
    }
  }
}
