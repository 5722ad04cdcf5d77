/** The records of types/index.ts. Optional (`?`) fields are `Option`s. */
module Types {
  import opened Wrappers

  /** A face descriptor: the embedding the face model extracts (128 numbers in practice). */
  type Descriptor = seq<real>

  datatype Contact = Contact(
    id: string,
    name: string,
    company: string,
    title: string,
    linkedinUrl: string,
    email: Option<string>,
    phone: Option<string>,
    notes: Option<string>,
    tags: Option<seq<string>>,
    faceDescriptor: Descriptor,
    imageUrl: string,
    createdAt: string,
    lastSeen: Option<string>)

  datatype Interaction = Interaction(
    id: string,
    contactId: string,
    date: string,
    notes: string,
    location: Option<string>)

  /** `Partial<Contact>`: a field is `Some` when the update object carries that key. */
  datatype ContactPatch = ContactPatch(
    id: Option<string>,
    name: Option<string>,
    company: Option<string>,
    title: Option<string>,
    linkedinUrl: Option<string>,
    email: Option<string>,
    phone: Option<string>,
    notes: Option<string>,
    tags: Option<seq<string>>,
    faceDescriptor: Option<Descriptor>,
    imageUrl: Option<string>,
    createdAt: Option<string>,
    lastSeen: Option<string>)

  /** The update object `{}`. */
  const EmptyPatch := ContactPatch(None, None, None, None, None, None, None, None, None, None, None, None, None)

  /** The update object `{ lastSeen: stamp }`. */
  function LastSeenPatch(stamp: string): ContactPatch {
    EmptyPatch.(lastSeen := Some(stamp))
  }

  function HasId(id: string): Contact -> bool {
    (c: Contact) => c.id == id
  }

  function LacksId(id: string): Contact -> bool {
    (c: Contact) => c.id != id
  }
}
