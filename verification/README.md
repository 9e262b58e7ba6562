# Slow letters: the fuzzy send engine

A Dafny model of the delayed-release ("fuzzy send") engine of a slow-letter
writing app. Letters the user schedules get a delivery window a few days
ahead. Each time the index page loads, a pass over every stored letter
decides which letters are sent:

- a letter whose window has closed is always sent;
- a letter inside its window is sent with probability 0.3;
- a letter whose window has not opened is left alone.

Around this pass sit the parts it depends on:

- the window calculator, which maps a delay tier to a pair of day offsets;
- the letter collection, with create, look up, upsert by id and delete;
- the merge of the built-in sample letters into the user's store;
- two page transitions: composing a letter on the write page and "Keep to
  Myself" on the letter page.

Modules, one per concern:

- `Letters` (`letters.dfy`): the letter record, `createLetter`, and the pure
  collection operations of `data.js`.
- `SendingWindow` (`sending_window.dfy`): `calculateSendingWindow`.
- `SampleData` (`sample_data.dfy`): the sample letters and contacts, and the
  merge that `initializeData` performs. The merge is specified twice: by the
  source's fold, and by an independent position-by-position description. A
  lemma proves the two agree.
- `Storage` (`storage.dfy`): the stored collections as a class
  `LetterStore`. Its methods load, change and save the collections as
  `updateLetter`, `deleteLetter`, `initializeData`, `loadContacts` and
  `addContact` do. A ghost counter records how often the letter collection
  is written.
- `FuzzySend` (`fuzzy_send.dfy`): `checkAndSendLetters`. It is a loop method
  over the loaded letters, proved against a per-letter decision function.
- `Pages` (`pages.dfy`): the write-page submit decision and the keep-private
  transition from `app.js`.

Modelling choices:

- Instants are integers: milliseconds since the epoch. A `setDate(+n)` adds
  `n` whole days.
- A stored property is a `Field`: missing (`undefined`), `null`, or a value.
  This matters for window bounds. `new Date(undefined)` is an Invalid Date,
  so every comparison with it is false. `new Date(null)` is the epoch. The
  model keeps both behaviours (`FuzzySend.DateOf`).
- As a result, the two scheduled sample letters, which store a window label
  but no window bounds, are never sent (`FuzzySend.SamplesNeverSent`).
- A letter scheduled without a tier gets null bounds, so any pass sends it
  at once (`FuzzySend.NullWindowSentAtOnce`).
- The clock and the random numbers are parameters. `draws[i]` is the value
  `Math.random()` returns for the letter at position `i`.
- Generated ids (clock plus random suffix) are parameters as well.

- Keeping a sample letter writes null window fields. The next
  `initializeData` treats them as unset and restores the sample's label and
  (missing) bounds, while the status stays 'kept'
  (`Pages.KeptSampleRegainsLabel`).

## Model

| member | source | states |
|---|---|---|
| Letters.CreateLetter | data.js:69-89 | property by property: a truthy input value is kept as given, a falsy or missing one gets its default ('' for title, body, contactId and notes; 'human', 'email', 'draft'; now for createdAt; null for the label, both window bounds and sentAt); the id is the generated one and lastEditedAt is now |
| Letters.IndexOf | data.js:55 | the index found holds the id and no earlier letter does; none is found exactly when no letter has the id |
| Letters.GetLetterById | data.js:44-47 | returns the first letter with the id, and nothing exactly when no letter has it |
| Letters.Upsert | data.js:53-62 | an existing id: the first entry with it is replaced, length and every other entry unchanged; a new id: appended after the unchanged collection |
| Letters.UpsertThenGet | data.js:53-62 | after updateLetter, getLetterById returns the stored letter |
| Letters.UpsertKeepsOtherLookups | data.js:53-62 | updateLetter does not change the lookup of any other id |
| Letters.UpsertIdempotent | data.js:53-62 | storing the same letter twice equals storing it once |
| Letters.UpsertKeepsUnique | data.js:53-62 | updateLetter keeps letter ids unique |
| Letters.DeleteLetter | data.js:95-99 | the survivors are exactly the letters with a different id; no letter with the id remains |
| Letters.DeleteSplits | data.js:97 | deletion distributes over concatenation, so survivors keep their relative order |
| Letters.DeleteAbsent | data.js:97 | deleting an id no letter has changes nothing |
| Letters.DeleteAfterUpsert | data.js:95-98 | deleting a letter just stored leaves what deleting it from the original collection leaves, for any collection |
| Letters.DeleteKeepsUnique | data.js:95-98 | deleteLetter keeps ids unique |
| SendingWindow.TierDays | data.js:145-161 | offsets satisfy 0 < minDays < maxDays; any unknown tier gets (3, 7) |
| SendingWindow.CalculateSendingWindow | data.js:141-173 | now < start < end, both a whole number of days after now |
| SendingWindow.TierTable | data.js:145-167 | '1-3' gives now+1d..now+3d, '3-7' gives now+3d..now+7d, '8-14' gives now+8d..now+14d, anything else equals '3-7' |
| SendingWindow.WindowWidth | data.js:145-167 | the window spans 2, 4 or 6 days by tier |
| SendingWindow.WindowShifts | data.js:163-167 | a window computed later is the same window shifted by the delay |
| SampleData.DefaultLettersUnique | data.js:269-351 | the sample letters have distinct ids |
| SampleData.Refresh | data.js:442-452 | the refreshed entry has the sample's content with the user's status and sentAt; label, window bounds and edit time are the user's where set (truthy) and the sample's otherwise |
| SampleData.RefreshIdempotent | data.js:443-452 | refreshing twice from the same sample changes nothing more; a sample refreshed from itself is itself |
| SampleData.MergeDefault | data.js:439-458 | a stored id: the first entry with it becomes its refresh from the sample, every other entry and the length unchanged; an absent id appends the sample |
| SampleData.MergeDefaults | data.js:438-459 | the forEach over the samples in order: no existing entry is removed or moved, each keeps its id, status and sentAt, and at most one letter per sample is added |
| SampleData.InitialLetters | data.js:429-464 | an empty store becomes exactly the sample letters |
| SampleData.MergeDefaultsMeetsSpec | data.js:438-459 | the forEach equals the description: existing entries in place (the first with a sample id refreshed), then the missing samples in order |
| SampleData.MergeDefaultsShape | data.js:438-459 | every existing entry keeps position, id, status and sentAt; entries without a sample id are untouched; the missing samples follow |
| SampleData.MergeDefaultsHasDefault | data.js:438-459 | after the merge each sample's id finds the sample refreshed from the user's entry, or the sample itself if it was missing |
| SampleData.MergeDefaultsIdempotent | data.js:438-459 | merging into an empty store gives the samples; merging twice equals merging once |
| SampleData.MergeDefaultsUnique | data.js:438-459 | the merge keeps ids unique |
| SampleData.InitialLettersStable | data.js:429-464 | initializeData's result equals the merge even for an empty store, a second run changes nothing, and ids stay unique |
| Storage.NewContact | data.js:495-501 | the new contact has the given id, name and channel, and phone and e-mail default to "" |
| Storage.MergeSamples | data.js:436-459 | the loop computes the merge fold, and its updated flag is set exactly when there is a sample to merge |
| Storage.LetterStore.SaveLetters | data.js:31-37 | replaces the letter collection and counts one write |
| Storage.LetterStore.UpdateLetter | data.js:53-62 | the store becomes the upsert of the old store, the letter is found by its id, one write, unique ids preserved |
| Storage.LetterStore.DeleteLetter | data.js:95-99 | the store becomes the filtered old store, the id is no longer found, one write, unique ids preserved |
| Storage.LetterStore.InitializeData | data.js:417-465 | contacts seeded when absent; letters become the samples or the merge; unique ids preserved |
| Storage.LetterStore.LoadContacts | data.js:357-370 | returns the stored contacts, or seeds and returns the samples when absent |
| Storage.LetterStore.AddContact | data.js:492-505 | the loaded contact list gains the new contact at its end; letters untouched |
| FuzzySend.DateOf | app.js:15-16 | a missing bound is an invalid date, null is the epoch, a stored time is that instant |
| FuzzySend.Reached | app.js:15-25 | `now >= new Date(bound)`: never for a missing bound, from the epoch on for null, from the stored instant on otherwise |
| FuzzySend.Pending | app.js:14 | the pass considers a letter iff it is scheduled and its sentAt is missing or null |
| FuzzySend.Deliver | app.js:20-21 | status 'sent' and sentAt now, every other property unchanged |
| FuzzySend.Decide | app.js:14-31 | a letter stays or is delivered now; it changes iff scheduled, unsent, and its window closed or it is open and the draw is under 0.3 |
| FuzzySend.ReleasePass | app.js:13-33 | the pass keeps length, order and ids, and changes only status and sentAt |
| FuzzySend.SendDue | app.js:11-33 | the loop yields the pass's result, and its updated flag is set iff some letter changed |
| FuzzySend.CheckAndSendLetters | app.js:8-38 | the store holds the pass's result and is written once iff something changed, else not at all; unique ids preserved |
| FuzzySend.DeadlineForcesSend | app.js:19-23 | a scheduled, unsent letter with now >= windowEnd becomes 'sent' with sentAt = now, whatever the draw |
| FuzzySend.OpenWindowSendsOnDraw | app.js:25-30 | inside the window it is sent with sentAt = now iff the draw is < 0.3, otherwise unchanged |
| FuzzySend.BeforeWindowUnchanged | app.js:19-31 | with a well-formed window and now < windowStart the letter is unchanged |
| FuzzySend.OnlyPendingLettersChange | app.js:14 | letters not scheduled or already stamped are never modified; a changed letter was scheduled and is now sent at now |
| FuzzySend.QuietPassChangesNothing | app.js:11-37 | no closed window and every draw >= 0.3: the pass changes nothing, so nothing is written |
| FuzzySend.PassIdempotent | app.js:13-33 | repeating a pass at the same instant with the same draws gives the same collection |
| FuzzySend.SentWithinWindow | app.js:19-30 | a letter the pass sends with a well-formed window is stamped now, and now is not before its window start |
| FuzzySend.PassKeepsSentStamped | app.js:14-30 | sent letters keep a sent time; already-sent letters are untouched |
| FuzzySend.PassKeepsUnique | app.js:13-33 | the pass keeps ids unique |
| FuzzySend.MissingWindowNeverSent | app.js:15-25 | a letter with no stored window bounds is never sent |
| FuzzySend.NullWindowSentAtOnce | app.js:16-23 | a scheduled, unsent letter with a null window end is sent by any pass after the epoch |
| FuzzySend.SamplesNeverSent | data.js:269-351 | a pass over the sample letters changes none of them |
| Pages.ChosenAction | app.js:255 | the checked action, or 'schedule' when none is checked |
| Pages.WindowLabel | app.js:259-272 | a label iff the action is 'schedule' and the tier is '1-3', '3-7' or '8-14'; it reads "within <tier> days"; otherwise null |
| Pages.InitialStatus | app.js:281 | 'draft' iff the action is 'draft', otherwise 'scheduled' |
| Pages.ComposeLetter | app.js:255-290 | the form's title, body, contact and channel (with createLetter's defaults), created and edited now, no sentAt; status 'draft' for the draft action and 'scheduled' for every other; label as above; when scheduling with a tier the window is the tier's window, opening after now (an unknown tier gets the 3-7 window with a null label); otherwise null bounds |
| Pages.SubmitLetter | app.js:275-292 | the store becomes the upsert of the composed letter, written once |
| Pages.ScheduledLetterScenario | app.js:286-290 | a '3-7' letter composed at t0 has window t0+3d..t0+7d, is untouched by a pass at t0+1d, and is sent by a pass at t0+8d whatever the draw |
| Pages.ComposedLetterReleaseBounds | app.js:286-290 | a scheduled composed letter is never sent before its window opens and always sent once it closes |
| Pages.DraftNeverSent | app.js:281 | a letter saved as draft is never sent by the pass |
| Pages.KeepPrivate | app.js:422-425 | status 'kept', window start, end and label null, nothing else changed |
| Pages.KeepToMyself | app.js:420-428 | on confirmation the store becomes the upsert of the kept letter, written once; otherwise the store is not touched |
| Pages.KeptSampleRegainsLabel | data.js:446-451 | a letter kept by the keep handler and then refreshed from a sample stays kept with its sentAt, but takes the sample's label and window bounds |
| Pages.KeptSampleL1Relabelled | data.js:446-451 | the kept sample l1 gets the label "within 3-7 days" back after a reload, with missing bounds |
| Pages.KeptNeverSent | app.js:422-425 | a kept letter is never sent by the pass |
| Pages.KeepThenLookup | app.js:422-426 | after keeping, the letter is found by its id in its kept form |

## Left out

- DOM rendering, event wiring, page dispatch, alerts and redirects in `app.js`. The form validation before the action is read (`app.js:180-253`) is left out too. `SubmitLetter` starts from the validated form values.
- `localStorage` and `JSON` I/O, including the fallback to `[]` when parsing fails. The store is the `LetterStore` object, read and written whole.
- Date parsing and formatting, `toISOString`, `formatDate`, `formatDateRange`. Instants are integers. A day is 86 400 000 ms, so DST and calendar arithmetic in `setDate` are not modelled.
- `createLetter` and `calculateSendingWindow` each read the clock separately. `Pages.ComposeLetter` uses one reading for both.
- `Math.random()` and `Date.now()` are parameters: the per-letter draws, and the generated letter and contact ids.
- FuzzySend.Decide: a draw is an exact real compared with 0.3; the source compares a double with the double nearest 0.3, which lies just below 0.3, so the two differ for that one draw only.
- FuzzySend.ReleasePass: a draw is supplied for every letter, indexed by position. The source draws only for letters inside their window. The distribution is the same, but the model does not capture the order of the calls.
- Sample letter bodies are replaced by "". The samples' missing `reflectionNotes` and `isPenpalReply` are modelled as "" and false.
- An existing letter's `reflectionNotes`, dropped by the spread in `data.js:443-452`, is modelled as the sample's value.
- Letter statuses outside the five listed in `data.js:10` are not modelled.
- Pen-pal seeding in `initializeData` (`data.js:424-426`) is not modelled. Neither are `loadPenpals`, `getPenpalById`, `getContactById`, settings, or the pen-pal reply generation in `app.js`. The release pass does not use them.
- `script.js` only renders a hard-coded list into the page.
- Concurrent page loads writing the same store (last writer wins) are not modelled.
