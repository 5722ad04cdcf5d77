/** lib/storage.ts: the contact and interaction lists kept in the browser's localStorage. */
module Storage {
  import opened Wrappers
  import opened Types
  import Seqs

  /** The object spread `{ ...c, ...u }`: every field the patch carries replaces the contact's. */
  function ApplyPatch(c: Contact, u: ContactPatch): Contact {
    Contact(
      u.id.GetOr(c.id), u.name.GetOr(c.name), u.company.GetOr(c.company), u.title.GetOr(c.title),
      u.linkedinUrl.GetOr(c.linkedinUrl),
      if u.email.Some? then u.email else c.email,
      if u.phone.Some? then u.phone else c.phone,
      if u.notes.Some? then u.notes else c.notes,
      if u.tags.Some? then u.tags else c.tags,
      u.faceDescriptor.GetOr(c.faceDescriptor), u.imageUrl.GetOr(c.imageUrl), u.createdAt.GetOr(c.createdAt),
      if u.lastSeen.Some? then u.lastSeen else c.lastSeen)
  }

  /** The empty update changes nothing, and applying an update twice is applying it once. */
  lemma ApplyPatchLaws(c: Contact, u: ContactPatch)
    ensures ApplyPatch(c, EmptyPatch) == c
    ensures ApplyPatch(ApplyPatch(c, u), u) == ApplyPatch(c, u)
  {
  }

  /** `{ lastSeen: t }` changes the last-seen time and no other field. */
  lemma LastSeenPatchTouchesOnlyLastSeen(c: Contact, stamp: string)
    ensures ApplyPatch(c, LastSeenPatch(stamp)) == c.(lastSeen := Some(stamp))
  {
  }

  /** `c` is the first entry of `cs` carrying `id`. */
  ghost predicate IsFirstWithId(cs: seq<Contact>, k: int, id: string) {
    0 <= k < |cs| && cs[k].id == id && forall j :: 0 <= j < k ==> cs[j].id != id
  }

  /** The list `updateContact(id, u)` writes back: the first entry with `id` gets the update, the others stay. */
  function UpdatedContacts(cs: seq<Contact>, id: string, u: ContactPatch): (r: seq<Contact>)
    ensures |r| == |cs|
    ensures forall k :: 0 <= k < |cs| ==> r[k] == if IsFirstWithId(cs, k, id) then ApplyPatch(cs[k], u) else cs[k]
    ensures (forall k :: 0 <= k < |cs| ==> cs[k].id != id) ==> r == cs
  {
    var i := Seqs.FirstIndex(cs, HasId(id));
    if i == -1 then cs else cs[i := ApplyPatch(cs[i], u)]
  }

  /** The list `deleteContact(id)` writes back. */
  function WithoutId(cs: seq<Contact>, id: string): (r: seq<Contact>)
    ensures forall c :: c in r <==> c in cs && c.id != id
    ensures forall c :: multiset(r)[c] == if c.id != id then multiset(cs)[c] else 0
    ensures Seqs.IsSubsequence(r, cs)
  {
    Seqs.FilterIsSubsequence(cs, LacksId(id));
    forall c ensures multiset(Seqs.Filter(cs, LacksId(id)))[c] == if c.id != id then multiset(cs)[c] else 0 {
      Seqs.FilterCount(cs, LacksId(id), c);
    }
    Seqs.Filter(cs, LacksId(id))
  }

  /** Deleting is idempotent. */
  lemma DeleteTwice(cs: seq<Contact>, id: string)
    ensures WithoutId(WithoutId(cs, id), id) == WithoutId(cs, id)
  {
    Seqs.FilterIdempotent(cs, LacksId(id));
  }

  /** Deleting an id that is absent keeps the list. */
  lemma DeleteAbsent(cs: seq<Contact>, id: string)
    requires forall k :: 0 <= k < |cs| ==> cs[k].id != id
    ensures WithoutId(cs, id) == cs
  {
    Seqs.FilterKeepsAll(cs, LacksId(id));
  }

  /** `getContactById` over a list: the first entry with `id`, or none. */
  function ContactWithId(cs: seq<Contact>, id: string): (r: Option<Contact>)
    ensures r.None? <==> forall k :: 0 <= k < |cs| ==> cs[k].id != id
    ensures r.Some? ==> exists k :: IsFirstWithId(cs, k, id) && cs[k] == r.value
  {
    Seqs.Find(cs, HasId(id))
  }

  /** After a delete, the id is no longer found. */
  lemma FindAfterDelete(cs: seq<Contact>, id: string)
    ensures ContactWithId(WithoutId(cs, id), id) == None
  {
    var r := WithoutId(cs, id);
    forall k | 0 <= k < |r| ensures r[k].id != id {
      assert r[k] in r;
    }
  }

  /** After a save, looking up the new contact's id finds it, unless an earlier entry already had that id. */
  lemma FindAfterSave(cs: seq<Contact>, c: Contact)
    ensures ContactWithId(cs + [c], c.id) == if ContactWithId(cs, c.id).Some? then ContactWithId(cs, c.id) else Some(c)
  {
    var s := cs + [c];
    if ContactWithId(cs, c.id).Some? {
      var k :| IsFirstWithId(cs, k, c.id) && cs[k] == ContactWithId(cs, c.id).value;
      assert IsFirstWithId(s, k, c.id) && s[k] == cs[k];
      FirstWithIdUnique(s, k, c.id);
    } else {
      assert IsFirstWithId(s, |cs|, c.id);
      FirstWithIdUnique(s, |cs|, c.id);
    }
  }

  lemma FirstWithIdUnique(cs: seq<Contact>, k: int, id: string)
    requires IsFirstWithId(cs, k, id)
    ensures ContactWithId(cs, id) == Some(cs[k])
  {
    var r := ContactWithId(cs, id);
    assert r.Some?;
    var m :| IsFirstWithId(cs, m, id) && cs[m] == r.value;
    assert m == k;
  }

  /** The interactions of one contact, in stored order. */
  function InteractionsOf(all: seq<Interaction>, contactId: string): (r: seq<Interaction>)
    ensures forall i :: i in r <==> i in all && i.contactId == contactId
    ensures Seqs.IsSubsequence(r, all)
    ensures forall i :: multiset(r)[i] == if i.contactId == contactId then multiset(all)[i] else 0
  {
    Seqs.FilterIsSubsequence(all, (i: Interaction) => i.contactId == contactId);
    forall i ensures multiset(Seqs.Filter(all, (i: Interaction) => i.contactId == contactId))[i] ==
                     if i.contactId == contactId then multiset(all)[i] else 0 {
      Seqs.FilterCount(all, (i: Interaction) => i.contactId == contactId, i);
    }
    Seqs.Filter(all, (i: Interaction) => i.contactId == contactId)
  }

  /** Appending an interaction extends exactly its own contact's list, at the end. */
  lemma InteractionsAfterSave(all: seq<Interaction>, i: Interaction, contactId: string)
    ensures InteractionsOf(all + [i], contactId) ==
            InteractionsOf(all, contactId) + (if i.contactId == contactId then [i] else [])
  {
    Seqs.FilterAppend(all, [i], (x: Interaction) => x.contactId == contactId);
  }

  /** The two localStorage keys, `'linkedin-face-crm-contacts'` and `'linkedin-face-crm-interactions'`,
      each holding a JSON list or nothing. `hasWindow` is false where the code runs without a browser window. */
  class ContactStore {
    const hasWindow: bool
    var contactsData: Option<seq<Contact>>
    var interactionsData: Option<seq<Interaction>>

    constructor (hasWindow: bool, contactsData: Option<seq<Contact>>, interactionsData: Option<seq<Interaction>>)
      ensures this.hasWindow == hasWindow
      ensures this.contactsData == contactsData && this.interactionsData == interactionsData
    {
      this.hasWindow := hasWindow;
      this.contactsData := contactsData;
      this.interactionsData := interactionsData;
    }

    /** `getAllContacts`: empty without a window or without stored data. */
    function AllContacts(): (r: seq<Contact>)
      reads this
      ensures !hasWindow || contactsData.None? ==> r == []
      ensures hasWindow && contactsData.Some? ==> r == contactsData.value
    {
      if hasWindow then contactsData.GetOr([]) else []
    }

    /** The stored interaction list, empty without a window or without stored data. */
    function AllInteractions(): (r: seq<Interaction>)
      reads this
      ensures !hasWindow || interactionsData.None? ==> r == []
      ensures hasWindow && interactionsData.Some? ==> r == interactionsData.value
    {
      if hasWindow then interactionsData.GetOr([]) else []
    }

    /** `saveContact`: push and write back. Without a window, `localStorage.setItem` throws and nothing is stored. */
    method SaveContact(c: Contact) returns (thrown: bool)
      modifies this
      ensures thrown == !hasWindow
      ensures thrown ==> unchanged(this)
      ensures !thrown ==> contactsData == Some(old(AllContacts()) + [c]) && interactionsData == old(interactionsData)
      ensures !thrown ==> AllContacts() == old(AllContacts()) + [c]
    {
      var contacts := AllContacts();
      contacts := contacts + [c];
      if !hasWindow {
        return true;
      }
      contactsData := Some(contacts);
      thrown := false;
    }

    /** `updateContact`: merge `updates` into the first entry with `id`; no write when there is none. */
    method UpdateContact(id: string, updates: ContactPatch)
      modifies this
      ensures AllContacts() == UpdatedContacts(old(AllContacts()), id, updates)
      ensures (forall k :: 0 <= k < |old(AllContacts())| ==> old(AllContacts())[k].id != id) ==> unchanged(this)
      ensures interactionsData == old(interactionsData)
    {
      var contacts := AllContacts();
      var index := Seqs.FirstIndex(contacts, HasId(id));
      if index != -1 {
        contacts := contacts[index := ApplyPatch(contacts[index], updates)];
        contactsData := Some(contacts);
      }
    }

    /** `deleteContact`: write back the entries whose id differs. Without a window, `setItem` throws. */
    method DeleteContact(id: string) returns (thrown: bool)
      modifies this
      ensures thrown == !hasWindow
      ensures thrown ==> unchanged(this)
      ensures !thrown ==> contactsData == Some(WithoutId(old(AllContacts()), id)) && interactionsData == old(interactionsData)
      ensures !thrown ==> AllContacts() == WithoutId(old(AllContacts()), id)
    {
      var filtered := WithoutId(AllContacts(), id);
      if !hasWindow {
        return true;
      }
      contactsData := Some(filtered);
      thrown := false;
    }

    /** `getContactById`: the first stored entry with `id`, or none. */
    function ContactById(id: string): (r: Option<Contact>)
      reads this
      ensures r.None? <==> forall k :: 0 <= k < |AllContacts()| ==> AllContacts()[k].id != id
      ensures r.Some? ==> r.value.id == id && r.value in AllContacts()
      ensures r.Some? ==> exists k :: IsFirstWithId(AllContacts(), k, id) && AllContacts()[k] == r.value
    {
      ContactWithId(AllContacts(), id)
    }

    /** `getInteractionsForContact`: the stored interactions with that `contactId`, in order. */
    function InteractionsForContact(contactId: string): (r: seq<Interaction>)
      reads this
      ensures !hasWindow ==> r == []
      ensures forall i :: i in r <==> i in AllInteractions() && i.contactId == contactId
      ensures Seqs.IsSubsequence(r, AllInteractions())
      ensures forall i :: multiset(r)[i] == if i.contactId == contactId then multiset(AllInteractions())[i] else 0
    {
      if !hasWindow then [] else InteractionsOf(AllInteractions(), contactId)
    }

    /** `saveInteraction`: append and write back; without a window it returns at once. */
    method SaveInteraction(interaction: Interaction)
      modifies this
      ensures !hasWindow ==> unchanged(this)
      ensures hasWindow ==> interactionsData == Some(old(AllInteractions()) + [interaction])
      ensures contactsData == old(contactsData)
      ensures AllInteractions() == if hasWindow then old(AllInteractions()) + [interaction] else old(AllInteractions())
    {
      if !hasWindow {
        return;
      }
      var interactions := AllInteractions();
      interactions := interactions + [interaction];
      interactionsData := Some(interactions);
    }
  }
}
