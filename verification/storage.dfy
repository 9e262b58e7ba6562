/** The persisted collections and the data.js operations that load a
    collection, change it and save it back. Each operation reads the store
    once and writes it at most once. */
module Storage {
  import opened Letters
  import opened SampleData

  /** addContact's record: the phone and e-mail default to "". */
  function NewContact(id: string, name: string, channel: string,
                      phone: Field<string>, email: Field<string>): (c: Contact)
    ensures c.id == id && c.name == name && c.channel == channel
    ensures c.phone == (if HasText(phone) then phone.value else "")
    ensures c.email == (if HasText(email) then email.value else "")
  {
    Contact(id, name, channel, TextOr(phone, ""), TextOr(email, ""))
  }

  /** The forEach of initializeData over the sample letters ds: refresh the
      first entry with a sample's id, or append the sample; `updated` records
      whether any sample was visited. */
  method MergeSamples(existing: seq<Letter>, ds: seq<Letter>) returns (merged: seq<Letter>, updated: bool)
    ensures merged == MergeDefaults(existing, ds)
    ensures updated <==> ds != []
  {
    merged := existing;
    updated := false;
    var i := 0;
    while i < |ds|
      invariant 0 <= i <= |ds|
      invariant merged == MergeDefaults(existing, ds[..i])
      invariant updated <==> i > 0
    {
      var defaultLetter := ds[i];
      var existingIndex := IndexOf(merged, defaultLetter.id);
      if existingIndex.Some? {
        var k := existingIndex.value;
        merged := merged[k := Refresh(merged[k], defaultLetter)];
      } else {
        merged := merged + [defaultLetter];
      }
      updated := true;
      assert ds[..i + 1][..i] == ds[..i];
      i := i + 1;
    }
    assert ds[..i] == ds;
  }

  class LetterStore {
    /** The letters under the store's letter key. */
    var letters: seq<Letter>
    /** The contact list, or None while its key has never been written. */
    var contacts: Option<seq<Contact>>
    /** How many times the letter collection has been written. */
    ghost var letterWrites: nat

    /** Letter ids are the stable identity of letters. */
    ghost predicate Valid()
      reads this
    {
      UniqueIds(letters)
    }

    constructor (stored: seq<Letter>, storedContacts: Option<seq<Contact>>)
      ensures letters == stored && contacts == storedContacts && letterWrites == 0
    {
      letters := stored;
      contacts := storedContacts;
      letterWrites := 0;
    }

    /** saveLetters: replace the whole letter collection. */
    method SaveLetters(ls: seq<Letter>)
      modifies this
      ensures letters == ls && contacts == old(contacts)
      ensures letterWrites == old(letterWrites) + 1
    {
      letters := ls;
      letterWrites := letterWrites + 1;
    }

    /** updateLetter: replace the first letter with the same id in place,
        or append the letter when its id is new; then save. */
    method UpdateLetter(letter: Letter)
      modifies this
      ensures letters == Upsert(old(letters), letter)
      ensures GetLetterById(letters, letter.id) == Some(letter)
      ensures contacts == old(contacts) && letterWrites == old(letterWrites) + 1
      ensures old(Valid()) ==> Valid()
    {
      var ls := letters;
      var index := IndexOf(ls, letter.id);
      if index.Some? {
        ls := ls[index.value := letter];
      } else {
        ls := ls + [letter];
      }
      UpsertThenGet(letters, letter);
      if Valid() { UpsertKeepsUnique(letters, letter); }
      SaveLetters(ls);
    }

    /** deleteLetter: keep every letter whose id differs; then save. */
    method DeleteLetter(id: string)
      modifies this
      ensures letters == Letters.DeleteLetter(old(letters), id)
      ensures GetLetterById(letters, id) == None
      ensures contacts == old(contacts) && letterWrites == old(letterWrites) + 1
      ensures old(Valid()) ==> Valid()
    {
      var filtered := Letters.DeleteLetter(letters, id);
      if Valid() { DeleteKeepsUnique(letters, id); }
      SaveLetters(filtered);
    }

    /** initializeData: seed the contact list when its key is absent; seed an
        empty letter collection with the sample letters; otherwise merge the
        sample letters into it, one by one, and save. */
    method InitializeData()
      modifies this
      ensures letters == InitialLetters(old(letters))
      ensures contacts == if old(contacts).None? then Some(DefaultContacts) else old(contacts)
      ensures letterWrites == old(letterWrites) + 1
      ensures old(Valid()) ==> Valid()
    {
      if contacts.None? {
        contacts := Some(DefaultContacts);
      }
      InitialLettersStable(letters);
      var existing := letters;
      if |existing| == 0 {
        SaveLetters(DefaultLetters);
      } else {
        var updated;
        existing, updated := MergeSamples(existing, DefaultLetters);
        if updated {
          SaveLetters(existing);
        }
      }
    }

    /** loadContacts: the stored list, or the sample contacts, which are then
        saved, when the key is absent. */
    method LoadContacts() returns (cs: seq<Contact>)
      modifies this
      ensures cs == if old(contacts).Some? then old(contacts).value else DefaultContacts
      ensures contacts == Some(cs)
      ensures letters == old(letters) && letterWrites == old(letterWrites)
    {
      if contacts.None? {
        contacts := Some(DefaultContacts);
      }
      cs := contacts.value;
    }

    /** addContact: append a new contact to the loaded list and save it.
        The id derived from the clock is a parameter. */
    method AddContact(id: string, name: string, channel: string,
                      phone: Field<string>, email: Field<string>) returns (c: Contact)
      modifies this
      ensures c == NewContact(id, name, channel, phone, email)
      ensures contacts == Some((if old(contacts).Some? then old(contacts).value else DefaultContacts) + [c])
      ensures letters == old(letters) && letterWrites == old(letterWrites)
    {
      var cs := LoadContacts();
      c := NewContact(id, name, channel, phone, email);
      cs := cs + [c];
      contacts := Some(cs);
    }
  }
}
