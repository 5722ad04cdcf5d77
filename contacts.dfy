/** app/contacts/page.tsx: the search filter over the contact list and deleting the selected contact. */
module ContactList {
  import opened Wrappers
  import opened Types
  import opened Strings
  import Seqs

  /** The search term, lower-cased, occurs in the lower-cased name, company or title. */
  predicate MatchesSearch(c: Contact, term: string) {
    var t := ToLower(term);
    Contains(ToLower(c.name), t) || Contains(ToLower(c.company), t) || Contains(ToLower(c.title), t)
  }

  function SearchFor(term: string): Contact -> bool {
    (c: Contact) => MatchesSearch(c, term)
  }

  /** `filteredContacts`. */
  function FilteredContacts(contacts: seq<Contact>, term: string): (r: seq<Contact>)
    ensures forall c :: c in r <==> c in contacts && MatchesSearch(c, term)
    ensures Seqs.IsSubsequence(r, contacts)
    ensures forall c :: multiset(r)[c] == if MatchesSearch(c, term) then multiset(contacts)[c] else 0
  {
    Seqs.FilterIsSubsequence(contacts, SearchFor(term));
    forall c ensures multiset(Seqs.Filter(contacts, SearchFor(term)))[c] ==
                     if MatchesSearch(c, term) then multiset(contacts)[c] else 0 {
      Seqs.FilterCount(contacts, SearchFor(term), c);
    }
    Seqs.Filter(contacts, SearchFor(term))
  }

  /** An empty search term shows every contact. */
  lemma EmptySearchKeepsAll(contacts: seq<Contact>)
    ensures FilteredContacts(contacts, "") == contacts
  {
    assert forall k :: 0 <= k < |contacts| ==> SearchFor("")(contacts[k]);
    Seqs.FilterKeepsAll(contacts, SearchFor(""));
  }

  /** Search terms that differ only in ASCII case show the same contacts. */
  lemma SearchIgnoresCase(contacts: seq<Contact>, term1: string, term2: string)
    requires ToLower(term1) == ToLower(term2)
    ensures FilteredContacts(contacts, term1) == FilteredContacts(contacts, term2)
  {
    Seqs.FilterCongruent(contacts, SearchFor(term1), SearchFor(term2));
  }

  /** In particular, upper-casing or lower-casing the term changes nothing. */
  lemma SearchIgnoresTermCase(contacts: seq<Contact>, term: string)
    ensures FilteredContacts(contacts, ToUpper(term)) == FilteredContacts(contacts, term)
    ensures FilteredContacts(contacts, ToLower(term)) == FilteredContacts(contacts, term)
  {
    ToLowerForgetsCase(term);
    SearchIgnoresCase(contacts, ToUpper(term), term);
    SearchIgnoresCase(contacts, ToLower(term), term);
  }

  /** The contact list page's state. */
  class ContactsPage {
    var contacts: seq<Contact>
    var searchTerm: string
    var selectedContact: Option<Contact>

    constructor ()
      ensures contacts == [] && searchTerm == "" && selectedContact.None?
    {
      contacts, searchTerm, selectedContact := [], "", None;
    }

    /** `handleDelete(id)`: `confirmed` is the user's answer to the confirmation dialog and `reloaded` what
        `getAllContacts` returns afterwards. The result is the id handed to `deleteContact`, if any. */
    method HandleDelete(id: string, confirmed: bool, reloaded: seq<Contact>) returns (deleted: Option<string>)
      modifies this`contacts, this`selectedContact
      ensures !confirmed ==> deleted.None? && unchanged(this)
      ensures confirmed ==> deleted == Some(id) && contacts == reloaded
      ensures confirmed && old(selectedContact).Some? && old(selectedContact).value.id == id ==> selectedContact.None?
      ensures confirmed && !(old(selectedContact).Some? && old(selectedContact).value.id == id) ==>
                selectedContact == old(selectedContact)
    {
      deleted := None;
      if confirmed {
        deleted := Some(id);
        contacts := reloaded;
        if selectedContact.Some? && selectedContact.value.id == id {
          selectedContact := None;
        }
      }
    }
  }
}
