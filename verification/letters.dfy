/** The letter record of the slow-letter app and the pure operations on the
    letter collection: record construction with defaults, lookup by id,
    upsert by id, deletion by id. (data.js) */
module Letters {

  /** Instants are milliseconds since the Unix epoch. */
  type Time = int

  datatype Option<T> = None | Some(value: T)

  /** A property of a stored JSON object: missing altogether (`undefined`),
      explicitly `null`, or holding a value. */
  datatype Field<T> = Absent | Null | Value(value: T)

  /** The five statuses a letter can take (data.js:10). */
  datatype Status = Draft | Scheduled | Sent | Kept | Cancelled

  /** A stored letter. Time-valued properties are ISO-8601 strings in the
      store; here they are the instants those strings denote. */
  datatype Letter = Letter(
    id: string,
    title: string,
    body: string,
    recipientType: string,
    contactId: string,
    channel: string,
    status: Status,
    createdAt: Field<Time>,
    lastEditedAt: Field<Time>,
    scheduledWindow: Field<string>,
    scheduledWindowStart: Field<Time>,
    scheduledWindowEnd: Field<Time>,
    sentAt: Field<Time>,
    reflectionNotes: string,
    isPenpalReply: bool)

  // ---------------------------------------------------------------------
  // JavaScript truthiness of stored properties
  // ---------------------------------------------------------------------

  /** A string property is truthy when present and non-empty. */
  predicate HasText(f: Field<string>) {
    f.Value? && f.value != ""
  }

  /** `f || fallback` for a time property: an ISO string is never empty, so
      only a present value is truthy. */
  function OrTime(f: Field<Time>, fallback: Field<Time>): Field<Time> {
    if f.Value? then f else fallback
  }

  /** `f || fallback` for a string property. */
  function OrText(f: Field<string>, fallback: Field<string>): Field<string> {
    if HasText(f) then f else fallback
  }

  /** `f || fallback` where the fallback is a plain string. */
  function TextOr(f: Field<string>, fallback: string): string {
    if HasText(f) then f.value else fallback
  }

  // ---------------------------------------------------------------------
  // createLetter
  // ---------------------------------------------------------------------

  /** The `data` object handed to createLetter: every property optional. */
  datatype LetterInput = LetterInput(
    title: Field<string>,
    body: Field<string>,
    recipientType: Field<string>,
    contactId: Field<string>,
    channel: Field<string>,
    status: Field<Status>,
    createdAt: Field<Time>,
    scheduledWindow: Field<string>,
    scheduledWindowStart: Field<Time>,
    scheduledWindowEnd: Field<Time>,
    sentAt: Field<Time>,
    reflectionNotes: Field<string>)

  /** An input object with no properties at all. */
  const NoInput := LetterInput(Absent, Absent, Absent, Absent, Absent, Absent,
                               Absent, Absent, Absent, Absent, Absent, Absent)

  /** createLetter: fill every property, defaulting those the input leaves
      falsy. The generated id and the clock reading are parameters. */
  function CreateLetter(input: LetterInput, id: string, now: Time): (l: Letter)
    // an empty input gives the default draft
    ensures input == NoInput ==>
      l == Letter(id, "", "", "human", "", "email", Draft, Value(now), Value(now),
                  Null, Null, Null, Null, "", false)
    // every supplied (truthy) property is kept as given
    ensures HasText(input.title) ==> l.title == input.title.value
    ensures HasText(input.body) ==> l.body == input.body.value
    ensures HasText(input.recipientType) ==> l.recipientType == input.recipientType.value
    ensures HasText(input.contactId) ==> l.contactId == input.contactId.value
    ensures HasText(input.channel) ==> l.channel == input.channel.value
    ensures HasText(input.reflectionNotes) ==> l.reflectionNotes == input.reflectionNotes.value
    ensures HasText(input.scheduledWindow) ==> l.scheduledWindow == input.scheduledWindow
    ensures input.status.Value? ==> l.status == input.status.value
    ensures input.createdAt.Value? ==> l.createdAt == input.createdAt
    ensures input.scheduledWindowStart.Value? ==> l.scheduledWindowStart == input.scheduledWindowStart
    ensures input.scheduledWindowEnd.Value? ==> l.scheduledWindowEnd == input.scheduledWindowEnd
    ensures input.sentAt.Value? ==> l.sentAt == input.sentAt
    // missing (falsy) ones take their documented defaults, property by property
    ensures !HasText(input.title) ==> l.title == ""
    ensures !HasText(input.body) ==> l.body == ""
    ensures !HasText(input.recipientType) ==> l.recipientType == "human"
    ensures !HasText(input.contactId) ==> l.contactId == ""
    ensures !HasText(input.channel) ==> l.channel == "email"
    ensures !HasText(input.reflectionNotes) ==> l.reflectionNotes == ""
    ensures !HasText(input.scheduledWindow) ==> l.scheduledWindow == Null
    ensures !input.status.Value? ==> l.status == Draft
    ensures !input.createdAt.Value? ==> l.createdAt == Value(now)
    ensures !input.scheduledWindowStart.Value? ==> l.scheduledWindowStart == Null
    ensures !input.scheduledWindowEnd.Value? ==> l.scheduledWindowEnd == Null
    ensures !input.sentAt.Value? ==> l.sentAt == Null
    // the record is fresh: new id, just edited, not a pen-pal reply
    ensures l.id == id && l.lastEditedAt == Value(now) && !l.isPenpalReply
  {
    Letter(
      id := id,
      title := TextOr(input.title, ""),
      body := TextOr(input.body, ""),
      recipientType := TextOr(input.recipientType, "human"),
      contactId := TextOr(input.contactId, ""),
      channel := TextOr(input.channel, "email"),
      status := if input.status.Value? then input.status.value else Draft,
      createdAt := OrTime(input.createdAt, Value(now)),
      lastEditedAt := Value(now),
      scheduledWindow := OrText(input.scheduledWindow, Null),
      scheduledWindowStart := OrTime(input.scheduledWindowStart, Null),
      scheduledWindowEnd := OrTime(input.scheduledWindowEnd, Null),
      sentAt := OrTime(input.sentAt, Null),
      reflectionNotes := TextOr(input.reflectionNotes, ""),
      isPenpalReply := false)
  }

  // ---------------------------------------------------------------------
  // Identity
  // ---------------------------------------------------------------------

  /** No two letters of the collection share an id. */
  ghost predicate UniqueIds(ls: seq<Letter>) {
    forall i, j :: 0 <= i < j < |ls| ==> ls[i].id != ls[j].id
  }

  /** Some letter of the collection has this id. */
  predicate HasId(ls: seq<Letter>, id: string) {
    exists k :: 0 <= k < |ls| && ls[k].id == id
  }

  /** `letters.findIndex(l => l.id === id)`, with -1 as None. */
  function IndexOf(ls: seq<Letter>, id: string): (r: Option<nat>)
    ensures r.Some? ==> r.value < |ls| && ls[r.value].id == id
    ensures r.Some? ==> forall j :: 0 <= j < r.value ==> ls[j].id != id
    ensures r.None? <==> !HasId(ls, id)
  {
    if ls == [] then None
    else if ls[0].id == id then Some(0)
    else match IndexOf(ls[1..], id)
      case None => None
      case Some(k) => Some(k + 1)
  }

  /** The first index of an id is determined by the letters up to it. */
  lemma IndexOfIs(ls: seq<Letter>, id: string, k: nat)
    requires k < |ls| && ls[k].id == id
    requires forall j :: 0 <= j < k ==> ls[j].id != id
    ensures IndexOf(ls, id) == Some(k)
  {
    assert HasId(ls, id);
  }

  /** In a collection with unique ids, the letter at position k is the first
      with its id. */
  lemma IndexOfUnique(ls: seq<Letter>, k: nat)
    requires UniqueIds(ls) && k < |ls|
    ensures IndexOf(ls, ls[k].id) == Some(k)
  {
    IndexOfIs(ls, ls[k].id, k);
  }

  /** getLetterById: the first letter with a matching id, if any. */
  function GetLetterById(ls: seq<Letter>, id: string): (r: Option<Letter>)
    ensures r.None? <==> !HasId(ls, id)
    ensures r.Some? ==> exists k :: 0 <= k < |ls| && ls[k] == r.value && ls[k].id == id &&
                          forall j :: 0 <= j < k ==> ls[j].id != id
  {
    match IndexOf(ls, id)
    case None => None
    case Some(k) => Some(ls[k])
  }

  // ---------------------------------------------------------------------
  // updateLetter: replace the first entry with the same id, else append
  // ---------------------------------------------------------------------

  /** The collection updateLetter writes back. */
  function Upsert(ls: seq<Letter>, l: Letter): (r: seq<Letter>)
    // an existing id is replaced in place: same length, every other entry identical
    ensures HasId(ls, l.id) ==>
      |r| == |ls| &&
      exists k :: 0 <= k < |ls| && ls[k].id == l.id && (forall j :: 0 <= j < k ==> ls[j].id != l.id) &&
        r[k] == l && forall j :: 0 <= j < |ls| && j != k ==> r[j] == ls[j]
    // a new id is appended after every earlier entry
    ensures !HasId(ls, l.id) ==> |r| == |ls| + 1 && r[..|ls|] == ls && r[|ls|] == l
  {
    match IndexOf(ls, l.id)
    case Some(k) => ls[k := l]
    case None => ls + [l]
  }

  /** After updateLetter, getLetterById returns the letter just stored. */
  lemma UpsertThenGet(ls: seq<Letter>, l: Letter)
    ensures GetLetterById(Upsert(ls, l), l.id) == Some(l)
  {
    match IndexOf(ls, l.id)
    case Some(k) =>
      IndexOfIs(ls[k := l], l.id, k);
    case None =>
      IndexOfIs(ls + [l], l.id, |ls|);
  }

  /** updateLetter leaves the lookups of every other id as they were. */
  lemma UpsertKeepsOtherLookups(ls: seq<Letter>, l: Letter, id: string)
    requires id != l.id
    ensures GetLetterById(Upsert(ls, l), id) == GetLetterById(ls, id)
  {
    var r := Upsert(ls, l);
    match IndexOf(ls, id)
    case Some(k) =>
      assert r[k] == ls[k] by {
        if IndexOf(ls, l.id).Some? { assert IndexOf(ls, l.id).value != k; }
      }
      IndexOfIs(r, id, k);
    case None =>
      assert !HasId(r, id) by {
        forall j | 0 <= j < |r| ensures r[j].id != id {
          if IndexOf(ls, l.id).Some? {
            if j != IndexOf(ls, l.id).value { assert r[j] == ls[j]; }
          } else if j < |ls| {
            assert r[j] == ls[j];
          }
        }
      }
  }

  /** Storing the same letter twice is the same as storing it once. */
  lemma UpsertIdempotent(ls: seq<Letter>, l: Letter)
    ensures Upsert(Upsert(ls, l), l) == Upsert(ls, l)
  {
    var r := Upsert(ls, l);
    match IndexOf(ls, l.id)
    case Some(k) =>
      IndexOfIs(r, l.id, k);
    case None =>
      IndexOfIs(r, l.id, |ls|);
  }

  /** updateLetter keeps ids unique. */
  lemma UpsertKeepsUnique(ls: seq<Letter>, l: Letter)
    requires UniqueIds(ls)
    ensures UniqueIds(Upsert(ls, l))
  {
    var r := Upsert(ls, l);
    match IndexOf(ls, l.id)
    case Some(k) =>
      forall i, j | 0 <= i < j < |r| ensures r[i].id != r[j].id {
        assert r[i].id == ls[i].id && r[j].id == ls[j].id;
      }
    case None =>
      forall i, j | 0 <= i < j < |r| ensures r[i].id != r[j].id {
        if j == |ls| { assert r[i] == ls[i]; } else { assert r[i] == ls[i] && r[j] == ls[j]; }
      }
  }

  // ---------------------------------------------------------------------
  // deleteLetter: keep every letter whose id differs
  // ---------------------------------------------------------------------

  /** `letters.filter(l => l.id !== id)`. */
  function DeleteLetter(ls: seq<Letter>, id: string): (r: seq<Letter>)
    ensures forall l :: l in r <==> l in ls && l.id != id
    ensures !HasId(r, id)
    ensures |r| <= |ls|
  {
    if ls == [] then []
    else (if ls[0].id == id then [] else [ls[0]]) + DeleteLetter(ls[1..], id)
  }

  /** Deletion works piecewise, so the survivors keep their relative order. */
  lemma {:induction false} DeleteSplits(a: seq<Letter>, b: seq<Letter>, id: string)
    ensures DeleteLetter(a + b, id) == DeleteLetter(a, id) + DeleteLetter(b, id)
  {
    if a == [] {
      assert a + b == b;
    } else {
      assert (a + b)[1..] == a[1..] + b;
      DeleteSplits(a[1..], b, id);
    }
  }

  /** Deleting an id no letter has leaves the collection as it is. */
  lemma {:induction false} DeleteAbsent(ls: seq<Letter>, id: string)
    requires !HasId(ls, id)
    ensures DeleteLetter(ls, id) == ls
  {
    if ls != [] {
      assert !HasId(ls[1..], id) by {
        forall j | 0 <= j < |ls| - 1 ensures ls[1..][j].id != id { assert ls[1..][j] == ls[j + 1]; }
      }
      DeleteAbsent(ls[1..], id);
    }
  }

  /** Deleting after storing removes every trace of the stored letter. */
  lemma DeleteAfterUpsert(ls: seq<Letter>, l: Letter)
    ensures DeleteLetter(Upsert(ls, l), l.id) == DeleteLetter(ls, l.id)
  {
    match IndexOf(ls, l.id)
    case Some(k) =>
      assert ls == ls[..k] + [ls[k]] + ls[k + 1..];
      assert ls[k := l] == ls[..k] + [l] + ls[k + 1..];
      DeleteSplits(ls[..k] + [ls[k]], ls[k + 1..], l.id);
      DeleteSplits(ls[..k], [ls[k]], l.id);
      DeleteSplits(ls[..k] + [l], ls[k + 1..], l.id);
      DeleteSplits(ls[..k], [l], l.id);
    case None =>
      DeleteSplits(ls, [l], l.id);
      assert DeleteLetter([l], l.id) == [];
  }

  /** deleteLetter keeps ids unique. */
  lemma {:induction false} DeleteKeepsUnique(ls: seq<Letter>, id: string)
    requires UniqueIds(ls)
    ensures UniqueIds(DeleteLetter(ls, id))
  {
    if ls != [] {
      DeleteKeepsUnique(ls[1..], id);
      var rest := DeleteLetter(ls[1..], id);
      forall l | l in rest ensures l.id != ls[0].id {
        var j :| 0 <= j < |ls[1..]| && ls[1..][j] == l;
        assert ls[j + 1] == l;
      }
    }
  }
}
