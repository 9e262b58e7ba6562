/** The built-in sample letters and contacts, and the merge that
    initializeData applies to a non-empty store (data.js). */
module SampleData {
  import opened Letters

  /** A sample letter; the sample bodies are long prose and are left empty
      here. No sample has a window start, a window end or an edit time. */
  function Sample(id: string, title: string, recipientType: string, contactId: string,
                  channel: string, status: Status, createdAt: Time,
                  windowLabel: Field<string>, sentAt: Field<Time>, reply: bool): Letter
  {
    Letter(id, title, "", recipientType, contactId, channel, status, Value(createdAt),
           Absent, windowLabel, Absent, Absent, sentAt, "", reply)
  }

  /** DEFAULT_LETTERS: seven letters, two of them scheduled. */
  const DefaultLetters: seq<Letter> := [
    Sample("l1", "About yesterday", "human", "c1", "sms", Scheduled, 1733044500000,
           Value("within 3-7 days"), Absent, false),
    Sample("l2", "Thank you for everything", "human", "c2", "email", Sent, 1732545000000,
           Value("within 1-3 days"), Value(1732701600000), false),
    Sample("l3", "Thoughts on our conversation", "human", "c3", "sms", Draft, 1733157900000,
           Null, Absent, false),
    Sample("l4", "What I should have said", "human", "c4", "email", Kept, 1732101600000,
           Null, Absent, false),
    Sample("l5", "Starting our exchange", "penpal", "p1", "internal", Sent, 1731661200000,
           Value("within 3-7 days"), Value(1731938400000), false),
    Sample("l6", "", "penpal", "p1", "internal", Sent, 1732098600000,
           Null, Value(1732098600000), true),
    Sample("l7", "Continuing the conversation", "penpal", "p1", "internal", Scheduled, 1733040000000,
           Value("within 3-7 days"), Absent, false)
  ]

  datatype Contact = Contact(id: string, name: string, channel: string, phone: string, email: string)

  /** DEFAULT_CONTACTS. */
  const DefaultContacts: seq<Contact> := [
    Contact("c1", "Mom", "sms", "+1 917-555-0134", ""),
    Contact("c2", "Ethan Carter", "email", "", "ethan@example.com"),
    Contact("c3", "Sarah Miller", "sms", "+1 212-555-0198", ""),
    Contact("c4", "Alex Chen", "email", "", "alex.chen@example.com")
  ]

  /** The sample letters have distinct ids. */
  lemma DefaultLettersUnique()
    ensures UniqueIds(DefaultLetters)
  {
  }

  // ---------------------------------------------------------------------
  // The merge of one built-in letter into the store
  // ---------------------------------------------------------------------

  /** The entry that replaces an existing letter with a built-in one's id:
      the built-in content, with the user's status and sentAt, and the
      user's label, window and edit time wherever those are set. */
  function Refresh(existing: Letter, d: Letter): (m: Letter)
    ensures m.status == existing.status && m.sentAt == existing.sentAt
    ensures m.(status := d.status, sentAt := d.sentAt, scheduledWindow := d.scheduledWindow,
               scheduledWindowStart := d.scheduledWindowStart,
               scheduledWindowEnd := d.scheduledWindowEnd, lastEditedAt := d.lastEditedAt) == d
    ensures HasText(existing.scheduledWindow) ==> m.scheduledWindow == existing.scheduledWindow
    ensures existing.scheduledWindowStart.Value? ==> m.scheduledWindowStart == existing.scheduledWindowStart
    ensures existing.scheduledWindowEnd.Value? ==> m.scheduledWindowEnd == existing.scheduledWindowEnd
    ensures existing.lastEditedAt.Value? ==> m.lastEditedAt == existing.lastEditedAt
    // where the user's are unset, the built-in letter's are used
    ensures !HasText(existing.scheduledWindow) ==> m.scheduledWindow == d.scheduledWindow
    ensures !existing.scheduledWindowStart.Value? ==> m.scheduledWindowStart == d.scheduledWindowStart
    ensures !existing.scheduledWindowEnd.Value? ==> m.scheduledWindowEnd == d.scheduledWindowEnd
    ensures !existing.lastEditedAt.Value? ==> m.lastEditedAt == d.lastEditedAt
  {
    d.(status := existing.status,
       sentAt := existing.sentAt,
       scheduledWindow := OrText(existing.scheduledWindow, d.scheduledWindow),
       scheduledWindowStart := OrTime(existing.scheduledWindowStart, d.scheduledWindowStart),
       scheduledWindowEnd := OrTime(existing.scheduledWindowEnd, d.scheduledWindowEnd),
       lastEditedAt := OrTime(existing.lastEditedAt, d.lastEditedAt))
  }

  /** Refreshing twice from the same built-in letter changes nothing more,
      and a built-in letter refreshed from itself is itself. */
  lemma RefreshIdempotent(e: Letter, d: Letter)
    ensures Refresh(Refresh(e, d), d) == Refresh(e, d)
    ensures Refresh(d, d) == d
  {
  }

  /** One step of the forEach over DEFAULT_LETTERS. */
  function MergeDefault(ls: seq<Letter>, d: Letter): (r: seq<Letter>)
    // the first entry with the id is refreshed in place, every other entry kept
    ensures HasId(ls, d.id) ==>
      |r| == |ls| &&
      exists k :: 0 <= k < |ls| && ls[k].id == d.id && (forall j :: 0 <= j < k ==> ls[j].id != d.id) &&
        r[k] == Refresh(ls[k], d) && forall j :: 0 <= j < |ls| && j != k ==> r[j] == ls[j]
    // an absent id appends the built-in letter
    ensures !HasId(ls, d.id) ==> r == ls + [d]
  {
    match IndexOf(ls, d.id)
    case Some(k) => ls[k := Refresh(ls[k], d)]
    case None => ls + [d]
  }

  /** The forEach over the built-in letters ds, in order. */
  function MergeDefaults(ls: seq<Letter>, ds: seq<Letter>): (r: seq<Letter>)
    // existing entries are never removed, at most one letter is added per sample
    ensures |ls| <= |r| <= |ls| + |ds|
    // every existing entry keeps its position, id, status and sentAt
    ensures forall i :: 0 <= i < |ls| ==>
      r[i].id == ls[i].id && r[i].status == ls[i].status && r[i].sentAt == ls[i].sentAt
    decreases |ds|
  {
    if ds == [] then ls
    else MergeDefault(MergeDefaults(ls, ds[..|ds| - 1]), ds[|ds| - 1])
  }

  /** The letters initializeData leaves in the store. */
  function InitialLetters(ls: seq<Letter>): (r: seq<Letter>)
    ensures ls == [] ==> r == DefaultLetters
  {
    if |ls| == 0 then DefaultLetters else MergeDefaults(ls, DefaultLetters)
  }

  // ---------------------------------------------------------------------
  // An independent description of the merge result
  // ---------------------------------------------------------------------

  /** The built-in letter with this id, if any. */
  function DefaultFor(ds: seq<Letter>, id: string): Option<Letter> {
    GetLetterById(ds, id)
  }

  /** What becomes of the existing entry at position i: the first entry
      with a built-in letter's id is refreshed from it, every other entry
      stays as it is. */
  function MergedAt(ls: seq<Letter>, ds: seq<Letter>, i: nat): Letter
    requires i < |ls|
  {
    if IndexOf(ls, ls[i].id) == Some(i) && DefaultFor(ds, ls[i].id).Some?
    then Refresh(ls[i], DefaultFor(ds, ls[i].id).value)
    else ls[i]
  }

  /** The built-in letters whose id the store lacks, in their own order. */
  function Missing(ls: seq<Letter>, ds: seq<Letter>): (r: seq<Letter>)
    decreases |ds|
  {
    if ds == [] then []
    else
      var last := ds[|ds| - 1];
      Missing(ls, ds[..|ds| - 1]) + (if HasId(ls, last.id) then [] else [last])
  }

  /** Every existing entry, merged where it stands. */
  function Positions(ls: seq<Letter>, ds: seq<Letter>): (r: seq<Letter>)
    ensures |r| == |ls| && forall i :: 0 <= i < |ls| ==> r[i] == MergedAt(ls, ds, i)
  {
    seq(|ls|, i requires 0 <= i < |ls| => MergedAt(ls, ds, i))
  }

  /** The merge result described position by position: every existing entry
      where it was, then the missing built-in letters. */
  function MergeSpec(ls: seq<Letter>, ds: seq<Letter>): seq<Letter> {
    Positions(ls, ds) + Missing(ls, ds)
  }

  /** Every entry of Missing is a built-in letter whose id the store lacks. */
  lemma {:induction false} MissingFacts(ls: seq<Letter>, ds: seq<Letter>)
    ensures forall m :: m in Missing(ls, ds) ==> m in ds && !HasId(ls, m.id)
    ensures UniqueIds(ds) ==> UniqueIds(Missing(ls, ds))
    ensures forall d :: d in ds && !HasId(ls, d.id) ==> d in Missing(ls, ds)
    decreases |ds|
  {
    if ds != [] {
      var init, last := ds[..|ds| - 1], ds[|ds| - 1];
      assert ds == init + [last];
      MissingFacts(ls, init);
      if UniqueIds(ds) {
        assert UniqueIds(init);
        var rest := Missing(ls, init);
        forall m | m in rest ensures m.id != last.id {
          var j :| 0 <= j < |init| && init[j] == m;
        }
      }
    }
  }

  lemma IndexOfAppend(ls: seq<Letter>, d: Letter, id: string)
    requires id != d.id
    ensures IndexOf(ls + [d], id) == IndexOf(ls, id)
  {
    match IndexOf(ls, id)
    case Some(k) => IndexOfIs(ls + [d], id, k);
    case None =>
      assert !HasId(ls + [d], id) by {
        forall j | 0 <= j < |ls| + 1 ensures (ls + [d])[j].id != id {
          if j < |ls| { assert (ls + [d])[j] == ls[j]; }
        }
      }
  }

  /** Two collections whose ids agree position by position have the same
      first index for every id. */
  lemma {:induction false} IndexOfSameIds(a: seq<Letter>, b: seq<Letter>, id: string)
    requires |a| == |b| && forall j :: 0 <= j < |a| ==> a[j].id == b[j].id
    ensures IndexOf(a, id) == IndexOf(b, id)
  {
    match IndexOf(a, id)
    case Some(k) => IndexOfIs(b, id, k);
    case None =>
      assert !HasId(b, id) by {
        forall j | 0 <= j < |b| ensures b[j].id != id { assert a[j].id == b[j].id; }
      }
  }

  /** The first index of an id found in a prefix is its first index in the
      whole collection. */
  lemma IndexOfPrefix(ls: seq<Letter>, extra: seq<Letter>, id: string)
    requires HasId(ls, id)
    ensures IndexOf(ls + extra, id) == IndexOf(ls, id)
  {
    var k := IndexOf(ls, id).value;
    IndexOfIs(ls + extra, id, k);
  }

  /** Unique ids of a collection with one more letter at its end. */
  lemma UniqueSnoc(ds: seq<Letter>, d: Letter)
    requires UniqueIds(ds + [d])
    ensures UniqueIds(ds) && !HasId(ds, d.id)
  {
    forall j | 0 <= j < |ds| ensures ds[j].id != d.id {
      assert (ds + [d])[j] == ds[j] && (ds + [d])[|ds|] == d;
    }
    forall i, j | 0 <= i < j < |ds| ensures ds[i].id != ds[j].id {
      assert (ds + [d])[i] == ds[i] && (ds + [d])[j] == ds[j];
    }
  }

  /** Looking up the built-in letters after one more is appended. */
  lemma DefaultForAppend(ds: seq<Letter>, d: Letter, id: string)
    requires !HasId(ds, d.id)
    ensures DefaultFor(ds + [d], id) == if id == d.id then Some(d) else DefaultFor(ds, id)
  {
    if id == d.id {
      forall j | 0 <= j < |ds| ensures (ds + [d])[j].id != d.id { assert (ds + [d])[j] == ds[j]; }
      IndexOfIs(ds + [d], id, |ds|);
    } else {
      IndexOfAppend(ds, d, id);
    }
  }

  /** Every existing entry keeps its id through the merge description. */
  lemma PositionsKeepIds(ls: seq<Letter>, ds: seq<Letter>, id: string)
    ensures forall i :: 0 <= i < |ls| ==> Positions(ls, ds)[i].id == ls[i].id
    ensures IndexOf(Positions(ls, ds), id) == IndexOf(ls, id)
  {
    IndexOfSameIds(Positions(ls, ds), ls, id);
  }

  /** Appending a built-in letter whose id is stored refreshes exactly the
      first entry with that id among the existing positions. */
  lemma PositionsStepPresent(ls: seq<Letter>, ds: seq<Letter>, d: Letter, k: nat)
    requires !HasId(ds, d.id) && IndexOf(ls, d.id) == Some(k)
    ensures Positions(ls, ds)[k := Refresh(ls[k], d)] == Positions(ls, ds + [d])
  {
    var pos, pos' := Positions(ls, ds), Positions(ls, ds + [d]);
    forall i | 0 <= i < |ls| ensures pos[k := Refresh(ls[k], d)][i] == pos'[i] {
      DefaultForAppend(ds, d, ls[i].id);
    }
  }

  /** Appending a built-in letter whose id is not stored leaves the existing
      positions alone. */
  lemma PositionsStepAbsent(ls: seq<Letter>, ds: seq<Letter>, d: Letter)
    requires !HasId(ds, d.id) && !HasId(ls, d.id)
    ensures Positions(ls, ds) == Positions(ls, ds + [d])
  {
    var pos, pos' := Positions(ls, ds), Positions(ls, ds + [d]);
    forall i | 0 <= i < |ls| ensures pos[i] == pos'[i] {
      DefaultForAppend(ds, d, ls[i].id);
    }
  }

  /** A stored id is found in the merge description where it is found in
      the store. */
  lemma MergeSpecIndexOf(ls: seq<Letter>, ds: seq<Letter>, id: string)
    requires HasId(ls, id)
    ensures IndexOf(MergeSpec(ls, ds), id) == IndexOf(ls, id)
  {
    PositionsKeepIds(ls, ds, id);
    IndexOfPrefix(Positions(ls, ds), Missing(ls, ds), id);
  }

  /** An id neither stored nor built in is absent from the merge description. */
  lemma MergeSpecLacks(ls: seq<Letter>, ds: seq<Letter>, id: string)
    requires !HasId(ds, id) && !HasId(ls, id)
    ensures !HasId(MergeSpec(ls, ds), id)
  {
    var r := MergeSpec(ls, ds);
    MissingFacts(ls, ds);
    PositionsKeepIds(ls, ds, id);
    forall j | 0 <= j < |r| ensures r[j].id != id {
      if j < |ls| {
        assert r[j] == Positions(ls, ds)[j];
      } else {
        assert r[j] == Missing(ls, ds)[j - |ls|];
        assert r[j] in ds;
      }
    }
  }

  /** The last built-in letter's id is already stored. */
  lemma MergeSpecStepPresent(ls: seq<Letter>, ds: seq<Letter>, d: Letter)
    requires !HasId(ds, d.id) && HasId(ls, d.id)
    ensures MergeDefault(MergeSpec(ls, ds), d) == MergeSpec(ls, ds + [d])
  {
    var ds' := ds + [d];
    assert ds'[..|ds'| - 1] == ds && ds'[|ds'| - 1] == d;
    var pos, miss := Positions(ls, ds), Missing(ls, ds);
    var k := IndexOf(ls, d.id).value;
    MergeSpecIndexOf(ls, ds, d.id);
    DefaultForAppend(ds, d, d.id);
    assert pos[k] == ls[k];
    PositionsStepPresent(ls, ds, d, k);
    assert Missing(ls, ds') == miss;
    assert (pos + miss)[k := Refresh(ls[k], d)] == pos[k := Refresh(ls[k], d)] + miss;
  }

  /** The last built-in letter's id is not stored yet. */
  lemma MergeSpecStepAbsent(ls: seq<Letter>, ds: seq<Letter>, d: Letter)
    requires !HasId(ds, d.id) && !HasId(ls, d.id)
    ensures MergeDefault(MergeSpec(ls, ds), d) == MergeSpec(ls, ds + [d])
  {
    var ds' := ds + [d];
    assert ds'[..|ds'| - 1] == ds && ds'[|ds'| - 1] == d;
    MergeSpecLacks(ls, ds, d.id);
    PositionsStepAbsent(ls, ds, d);
    assert Missing(ls, ds') == Missing(ls, ds) + [d];
  }

  /** The forEach of initializeData produces exactly the position-wise
      description: existing entries stay where they are (the first entry with
      a built-in id refreshed from it), missing built-in letters follow. */
  lemma {:induction false} MergeDefaultsMeetsSpec(ls: seq<Letter>, ds: seq<Letter>)
    requires UniqueIds(ds)
    ensures MergeDefaults(ls, ds) == MergeSpec(ls, ds)
    decreases |ds|
  {
    if ds == [] {
      assert Positions(ls, ds) == ls;
    } else {
      var init, last := ds[..|ds| - 1], ds[|ds| - 1];
      assert ds == init + [last];
      UniqueSnoc(init, last);
      MergeDefaultsMeetsSpec(ls, init);
      if HasId(ls, last.id) {
        MergeSpecStepPresent(ls, init, last);
      } else {
        MergeSpecStepAbsent(ls, init, last);
      }
    }
  }

  // ---------------------------------------------------------------------
  // Consequences for initializeData
  // ---------------------------------------------------------------------

  /** When every built-in id is stored, nothing is missing. */
  lemma {:induction false} MissingNothing(ls: seq<Letter>, ds: seq<Letter>)
    requires forall d :: d in ds ==> HasId(ls, d.id)
    ensures Missing(ls, ds) == []
    decreases |ds|
  {
    if ds != [] {
      assert ds[|ds| - 1] in ds;
      assert forall d :: d in ds[..|ds| - 1] ==> d in ds;
      MissingNothing(ls, ds[..|ds| - 1]);
    }
  }

  /** When no built-in id is stored, every built-in letter is missing. */
  lemma {:induction false} MissingEverything(ls: seq<Letter>, ds: seq<Letter>)
    requires forall d :: d in ds ==> !HasId(ls, d.id)
    ensures Missing(ls, ds) == ds
    decreases |ds|
  {
    if ds != [] {
      assert ds[|ds| - 1] in ds;
      assert forall d :: d in ds[..|ds| - 1] ==> d in ds;
      MissingEverything(ls, ds[..|ds| - 1]);
      assert ds[..|ds| - 1] + [ds[|ds| - 1]] == ds;
    }
  }

  /** In a collection with unique ids, a member is what its id looks up. */
  lemma LookupMember(ds: seq<Letter>, d: Letter)
    requires UniqueIds(ds) && d in ds
    ensures DefaultFor(ds, d.id) == Some(d)
  {
    var k :| 0 <= k < |ds| && ds[k] == d;
    IndexOfUnique(ds, k);
  }

  /** An existing position is merged the same way a second time. */
  lemma MergedAgainAtExisting(ls: seq<Letter>, ds: seq<Letter>, i: nat)
    requires i < |ls|
    ensures MergedAt(MergeSpec(ls, ds), ds, i) == MergeSpec(ls, ds)[i]
  {
    var r := MergeSpec(ls, ds);
    PositionsKeepIds(ls, ds, ls[i].id);
    assert r[i] == Positions(ls, ds)[i] == MergedAt(ls, ds, i);
    MergeSpecIndexOf(ls, ds, ls[i].id);
    if IndexOf(ls, ls[i].id) == Some(i) && DefaultFor(ds, ls[i].id).Some? {
      RefreshIdempotent(ls[i], DefaultFor(ds, ls[i].id).value);
    }
  }

  /** An appended built-in letter is the first entry with its id. */
  lemma AppendedIsFirst(ls: seq<Letter>, ds: seq<Letter>, i: nat)
    requires UniqueIds(ds) && |ls| <= i < |MergeSpec(ls, ds)|
    ensures IndexOf(MergeSpec(ls, ds), MergeSpec(ls, ds)[i].id) == Some(i)
    ensures MergeSpec(ls, ds)[i] in ds && !HasId(ls, MergeSpec(ls, ds)[i].id)
  {
    var r, miss := MergeSpec(ls, ds), Missing(ls, ds);
    var m := r[i];
    assert m == miss[i - |ls|];
    MissingFacts(ls, ds);
    assert m in miss;
    PositionsKeepIds(ls, ds, m.id);
    forall j | 0 <= j < i ensures r[j].id != m.id {
      if j < |ls| {
        assert r[j].id == ls[j].id;
      } else {
        assert r[j] == miss[j - |ls|];
      }
    }
    IndexOfIs(r, m.id, i);
  }

  /** An appended built-in letter is left as it is by a second merge. */
  lemma MergedAgainAtAppended(ls: seq<Letter>, ds: seq<Letter>, i: nat)
    requires UniqueIds(ds) && |ls| <= i < |MergeSpec(ls, ds)|
    ensures MergedAt(MergeSpec(ls, ds), ds, i) == MergeSpec(ls, ds)[i]
  {
    var m := MergeSpec(ls, ds)[i];
    AppendedIsFirst(ls, ds, i);
    LookupMember(ds, m);
    RefreshIdempotent(m, m);
  }

  /** Merging the same built-in letters a second time changes nothing. */
  lemma MergeSpecIdempotent(ls: seq<Letter>, ds: seq<Letter>)
    requires UniqueIds(ds)
    ensures MergeSpec(MergeSpec(ls, ds), ds) == MergeSpec(ls, ds)
  {
    var r := MergeSpec(ls, ds);
    forall d | d in ds ensures HasId(r, d.id) {
      if HasId(ls, d.id) {
        MergeSpecIndexOf(ls, ds, d.id);
      } else {
        MissingFacts(ls, ds);
        var j :| 0 <= j < |Missing(ls, ds)| && Missing(ls, ds)[j] == d;
        assert r[|ls| + j] == d;
      }
    }
    MissingNothing(r, ds);
    forall i | 0 <= i < |r| ensures Positions(r, ds)[i] == r[i] {
      if i < |ls| { MergedAgainAtExisting(ls, ds, i); } else { MergedAgainAtAppended(ls, ds, i); }
    }
    assert Positions(r, ds) == r;
  }

  /** What the merge leaves: every stored entry keeps its place, its id, its
      status and its sentAt; entries without a built-in id are not touched;
      the built-in letters the store lacked follow, in their order. */
  lemma MergeDefaultsShape(ls: seq<Letter>, ds: seq<Letter>)
    requires UniqueIds(ds)
    ensures var r := MergeDefaults(ls, ds);
      |r| >= |ls| &&
      r[|ls|..] == Missing(ls, ds) &&
      forall i :: 0 <= i < |ls| ==>
        r[i].id == ls[i].id && r[i].status == ls[i].status && r[i].sentAt == ls[i].sentAt &&
        (!HasId(ds, ls[i].id) ==> r[i] == ls[i])
  {
    MergeDefaultsMeetsSpec(ls, ds);
    var r := MergeSpec(ls, ds);
    forall i | 0 <= i < |ls|
      ensures r[i].id == ls[i].id && r[i].status == ls[i].status && r[i].sentAt == ls[i].sentAt
      ensures !HasId(ds, ls[i].id) ==> r[i] == ls[i]
    {
      assert r[i] == MergedAt(ls, ds, i);
    }
  }

  /** A built-in letter whose id is stored is found refreshed. */
  lemma MergeSpecLookupPresent(ls: seq<Letter>, ds: seq<Letter>, d: Letter)
    requires UniqueIds(ds) && d in ds && HasId(ls, d.id)
    ensures GetLetterById(MergeSpec(ls, ds), d.id) == Some(Refresh(GetLetterById(ls, d.id).value, d))
  {
    LookupMember(ds, d);
    var k := IndexOf(ls, d.id).value;
    MergeSpecIndexOf(ls, ds, d.id);
    assert MergeSpec(ls, ds)[k] == Positions(ls, ds)[k] == MergedAt(ls, ds, k);
  }

  /** A built-in letter whose id is not stored is found as it is. */
  lemma MergeSpecLookupAbsent(ls: seq<Letter>, ds: seq<Letter>, d: Letter)
    requires UniqueIds(ds) && d in ds && !HasId(ls, d.id)
    ensures GetLetterById(MergeSpec(ls, ds), d.id) == Some(d)
  {
    MissingFacts(ls, ds);
    var miss := Missing(ls, ds);
    var j :| 0 <= j < |miss| && miss[j] == d;
    assert MergeSpec(ls, ds)[|ls| + j] == d;
    AppendedIsFirst(ls, ds, |ls| + j);
  }

  /** Every built-in letter is stored after the merge: the first entry with
      its id is the built-in letter refreshed from the user's entry, or the
      built-in letter itself when the store lacked it. */
  lemma MergeDefaultsHasDefault(ls: seq<Letter>, ds: seq<Letter>, d: Letter)
    requires UniqueIds(ds) && d in ds
    ensures GetLetterById(MergeDefaults(ls, ds), d.id) ==
      if HasId(ls, d.id) then Some(Refresh(GetLetterById(ls, d.id).value, d)) else Some(d)
  {
    MergeDefaultsMeetsSpec(ls, ds);
    if HasId(ls, d.id) {
      MergeSpecLookupPresent(ls, ds, d);
    } else {
      MergeSpecLookupAbsent(ls, ds, d);
    }
  }

  /** The merge into an empty store is the built-in letters, and merging a
      second time changes nothing. */
  lemma MergeDefaultsIdempotent(ls: seq<Letter>, ds: seq<Letter>)
    requires UniqueIds(ds)
    ensures MergeDefaults([], ds) == ds
    ensures MergeDefaults(MergeDefaults(ls, ds), ds) == MergeDefaults(ls, ds)
  {
    assert MergeDefaults([], ds) == ds by {
      MergeDefaultsMeetsSpec([], ds);
      MissingEverything([], ds);
      assert Positions([], ds) == [];
    }
    var r := MergeDefaults(ls, ds);
    assert MergeDefaults(r, ds) == r by {
      MergeDefaultsMeetsSpec(ls, ds);
      MergeDefaultsMeetsSpec(r, ds);
      MergeSpecIdempotent(ls, ds);
    }
  }

  /** The merge keeps ids unique. */
  lemma MergeDefaultsUnique(ls: seq<Letter>, ds: seq<Letter>)
    requires UniqueIds(ls) && UniqueIds(ds)
    ensures UniqueIds(MergeDefaults(ls, ds))
  {
    MergeDefaultsMeetsSpec(ls, ds);
    var r := MergeSpec(ls, ds);
    PositionsKeepIds(ls, ds, "");
    forall j | 0 <= j < |r| ensures IndexOf(r, r[j].id) == Some(j) {
      if j < |ls| {
        assert r[j] == Positions(ls, ds)[j];
        IndexOfUnique(ls, j);
        MergeSpecIndexOf(ls, ds, ls[j].id);
      } else {
        AppendedIsFirst(ls, ds, j);
      }
    }
  }

  /** initializeData runs on every page load: running it again changes
      nothing, its empty-store shortcut agrees with the merge, and it keeps
      ids unique. */
  lemma InitialLettersStable(ls: seq<Letter>)
    ensures InitialLetters(ls) == MergeDefaults(ls, DefaultLetters)
    ensures InitialLetters(InitialLetters(ls)) == InitialLetters(ls)
    ensures UniqueIds(ls) ==> UniqueIds(InitialLetters(ls))
  {
    DefaultLettersUnique();
    MergeDefaultsIdempotent(ls, DefaultLetters);
    if UniqueIds(ls) { MergeDefaultsUnique(ls, DefaultLetters); }
  }
}
