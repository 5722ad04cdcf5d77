/** lib/supabase.ts: how database rows become records, which columns an update writes, which stored image a
    delete removes, how a save is sequenced, and how a data URL becomes the uploaded file. The database and the
    storage bucket are not modelled: every answer they give is a parameter. */
module Supabase {
  import opened Wrappers
  import opened Types
  import opened Strings
  import Seqs

  /** A row of the `contacts` table. Nullable columns are `Option`s; the fields follow the column names
      (`linkedin_url`, `face_descriptor`, `image_url`, `created_at`, `last_seen`). */
  datatype ContactRow = ContactRow(
    id: string, name: string, company: string,
    title: Option<string>, linkedinUrl: Option<string>, email: Option<string>, phone: Option<string>,
    notes: Option<string>, tags: Option<seq<string>>,
    faceDescriptor: Descriptor, imageUrl: string, createdAt: string, lastSeen: Option<string>)

  /** A row of the `interactions` table (`contact_id` is `contactId`). */
  datatype InteractionRow = InteractionRow(
    id: string, contactId: string, date: string, notes: Option<string>, location: Option<string>)

  /** `v || ''` for a nullable text column: null and the empty string both give `''`. */
  function OrEmpty(v: Option<string>): (r: string)
    ensures v.None? ==> r == ""
    ensures v.Some? ==> r == v.value
  {
    v.GetOr("")
  }

  /** The mapping in `getAllContacts` and `getContactById`. */
  function RowToContact(row: ContactRow): (c: Contact)
    ensures c.id == row.id && c.name == row.name && c.company == row.company
    ensures c.faceDescriptor == row.faceDescriptor && c.imageUrl == row.imageUrl
    ensures c.createdAt == row.createdAt && c.lastSeen == row.lastSeen
    ensures c.title == OrEmpty(row.title) && c.linkedinUrl == OrEmpty(row.linkedinUrl)
    ensures c.email == Some(OrEmpty(row.email)) && c.phone == Some(OrEmpty(row.phone))
    ensures c.notes == Some(OrEmpty(row.notes))
    ensures c.tags == Some(if row.tags.Some? then row.tags.value else [])
  {
    Contact(row.id, row.name, row.company, OrEmpty(row.title), OrEmpty(row.linkedinUrl),
            Some(OrEmpty(row.email)), Some(OrEmpty(row.phone)), Some(OrEmpty(row.notes)),
            Some(row.tags.GetOr([])), row.faceDescriptor, row.imageUrl, row.createdAt, row.lastSeen)
  }

  /** `getAllContacts`, given the query's answer: its rows, or none on an error. */
  function ContactsFromAnswer(answer: Option<seq<ContactRow>>): (r: seq<Contact>)
    ensures answer.None? ==> r == []
    ensures answer.Some? ==> |r| == |answer.value| && forall k :: 0 <= k < |r| ==> r[k] == RowToContact(answer.value[k])
  {
    if answer.None? then [] else Seqs.Map(answer.value, RowToContact)
  }

  /** `getContactById`, given the single-row query's answer: none on an error or a missing row. */
  function ContactFromAnswer(answer: Option<ContactRow>): (r: Option<Contact>)
    ensures r.None? <==> answer.None?
    ensures r.Some? ==> r.value == RowToContact(answer.value)
  {
    if answer.None? then None else Some(RowToContact(answer.value))
  }

  /** The mapping in `getInteractionsForContact`. */
  function RowToInteraction(row: InteractionRow): (i: Interaction)
    ensures i.id == row.id && i.contactId == row.contactId && i.date == row.date
    ensures i.notes == OrEmpty(row.notes) && i.location == Some(OrEmpty(row.location))
  {
    Interaction(row.id, row.contactId, row.date, OrEmpty(row.notes), Some(OrEmpty(row.location)))
  }

  /** `getInteractionsForContact`, given the query's answer. */
  function InteractionsFromAnswer(answer: Option<seq<InteractionRow>>): (r: seq<Interaction>)
    ensures answer.None? ==> r == []
    ensures answer.Some? ==> |r| == |answer.value| && forall k :: 0 <= k < |r| ==> r[k] == RowToInteraction(answer.value[k])
  {
    if answer.None? then [] else Seqs.Map(answer.value, RowToInteraction)
  }

  /** The object `saveContact` inserts: the contact's fields with the image's public URL. */
  datatype InsertRow = InsertRow(
    name: string, company: string, title: string, linkedinUrl: string,
    email: Option<string>, phone: Option<string>, notes: Option<string>, tags: Option<seq<string>>,
    faceDescriptor: Descriptor, imageUrl: string)

  function InsertPayload(c: Contact, publicUrl: string): InsertRow {
    InsertRow(c.name, c.company, c.title, c.linkedinUrl, c.email, c.phone, c.notes, c.tags, c.faceDescriptor, publicUrl)
  }

  /** The row the table holds after an insert: the database assigns `id` and `created_at`, `last_seen` is null. */
  function StoredRow(p: InsertRow, id: string, createdAt: string): ContactRow {
    ContactRow(id, p.name, p.company, Some(p.title), Some(p.linkedinUrl), p.email, p.phone, p.notes, p.tags,
               p.faceDescriptor, p.imageUrl, createdAt, None)
  }

  /** A saved contact reads back with its own fields, the public URL for its image, the database's id and
      creation time, and the read defaults for what it left out. */
  lemma SavedContactReadsBack(c: Contact, publicUrl: string, id: string, createdAt: string)
    ensures RowToContact(StoredRow(InsertPayload(c, publicUrl), id, createdAt)) ==
            c.(id := id, createdAt := createdAt, imageUrl := publicUrl, lastSeen := None,
               email := Some(OrEmpty(c.email)), phone := Some(OrEmpty(c.phone)), notes := Some(OrEmpty(c.notes)),
               tags := Some(c.tags.GetOr([])))
  {
  }

  /** The object `saveInteraction` inserts into the `interactions` table. */
  datatype InteractionInsert = InteractionInsert(contactId: string, notes: string, location: Option<string>)

  function InteractionPayload(i: Interaction): InteractionInsert {
    InteractionInsert(i.contactId, i.notes, i.location)
  }

  /** The row the table holds after that insert: the database assigns `id` and `date`. */
  function StoredInteractionRow(p: InteractionInsert, id: string, date: string): InteractionRow {
    InteractionRow(id, p.contactId, date, Some(p.notes), p.location)
  }

  /** A saved interaction reads back with its contact and notes, the database's id and date, and an
      empty location where it had none. */
  lemma SavedInteractionReadsBack(i: Interaction, id: string, date: string)
    ensures RowToInteraction(StoredInteractionRow(InteractionPayload(i), id, date)) ==
            i.(id := id, date := date, location := Some(OrEmpty(i.location)))
  {
  }

  /** A value of the update object sent to the `contacts` table. */
  datatype ColumnValue = Text(text: string) | TextList(items: seq<string>)

  /** The columns `updateContact` can write. `id`, `face_descriptor`, `image_url` and `created_at` are not
      among them. */
  datatype Column = Name | Company | Title | LinkedinUrl | Email | Phone | Notes | Tags | LastSeen

  /** The column's name in the table. */
  function ColumnName(col: Column): string {
    match col
    case Name => "name"
    case Company => "company"
    case Title => "title"
    case LinkedinUrl => "linkedin_url"
    case Email => "email"
    case Phone => "phone"
    case Notes => "notes"
    case Tags => "tags"
    case LastSeen => "last_seen"
  }

  /** No two fields share a column, so the update object can be keyed by `Column`. */
  lemma ColumnNamesDistinct(a: Column, b: Column)
    ensures ColumnName(a) == ColumnName(b) <==> a == b
  {
  }

  const AllColumns: set<Column> := {Name, Company, Title, LinkedinUrl, Email, Phone, Notes, Tags, LastSeen}

  /** JavaScript truthiness of an optional string: present and not empty. */
  predicate Truthy(v: Option<string>) {
    v.Some? && v.value != ""
  }

  /** `if (v) dbUpdates[column] = v` for a text field. */
  function TextIf(v: Option<string>): (r: Option<ColumnValue>)
    ensures r.Some? <==> Truthy(v)
    ensures r.Some? ==> r.value == Text(v.value)
  {
    if Truthy(v) then Some(Text(v.value)) else None
  }

  /** The value `updateContact` writes to `column` for `updates`, if any: a text column when its field is
      truthy, `tags` whenever the field is present (any array, even an empty one, is truthy). */
  function Requested(updates: ContactPatch, column: Column): Option<ColumnValue> {
    match column
    case Name => TextIf(updates.name)
    case Company => TextIf(updates.company)
    case Title => TextIf(updates.title)
    case LinkedinUrl => TextIf(updates.linkedinUrl)
    case Email => TextIf(updates.email)
    case Phone => TextIf(updates.phone)
    case Notes => TextIf(updates.notes)
    case Tags => if updates.tags.Some? then Some(TextList(updates.tags.value)) else None
    case LastSeen => TextIf(updates.lastSeen)
  }

  /** `m` holds exactly the requested values of the columns in `done`. */
  ghost predicate Written(m: map<Column, ColumnValue>, updates: ContactPatch, done: set<Column>) {
    forall c :: (c in m <==> c in done && Requested(updates, c).Some?) && (c in m ==> m[c] == Requested(updates, c).value)
  }

  /** One `if` of `updateContact`: writes `column` when it is requested. */
  function Put(m: map<Column, ColumnValue>, updates: ContactPatch, column: Column, ghost done: set<Column>): (r: map<Column, ColumnValue>)
    requires Written(m, updates, done) && column !in done
    ensures Written(r, updates, done + {column})
  {
    var v := Requested(updates, column);
    if v.Some? then m[column := v.value] else m
  }

  /** `dbUpdates` in `updateContact`: every column whose field is requested, with its value, and no other;
      the fields `id`, `faceDescriptor`, `imageUrl` and `createdAt` of the update have no column here. */
  method BuildDbUpdates(updates: ContactPatch) returns (dbUpdates: map<Column, ColumnValue>)
    ensures forall c :: c in dbUpdates <==> Requested(updates, c).Some?
    ensures forall c :: c in dbUpdates ==> dbUpdates[c] == Requested(updates, c).value
  {
    dbUpdates := map[];
    dbUpdates := Put(dbUpdates, updates, Name, {});
    dbUpdates := Put(dbUpdates, updates, Company, {Name});
    dbUpdates := Put(dbUpdates, updates, Title, {Name, Company});
    dbUpdates := Put(dbUpdates, updates, LinkedinUrl, {Name, Company, Title});
    dbUpdates := Put(dbUpdates, updates, Email, {Name, Company, Title, LinkedinUrl});
    dbUpdates := Put(dbUpdates, updates, Phone, {Name, Company, Title, LinkedinUrl, Email});
    dbUpdates := Put(dbUpdates, updates, Notes, {Name, Company, Title, LinkedinUrl, Email, Phone});
    dbUpdates := Put(dbUpdates, updates, Tags, {Name, Company, Title, LinkedinUrl, Email, Phone, Notes});
    dbUpdates := Put(dbUpdates, updates, LastSeen, AllColumns - {LastSeen});
    forall c: Column
      ensures c in AllColumns
    {
      match c
      case Name =>
      case Company =>
      case Title =>
      case LinkedinUrl =>
      case Email =>
      case Phone =>
      case Notes =>
      case Tags =>
      case LastSeen =>
    }
  }

  /** The last-seen update the recognition page sends writes the `last_seen` column and nothing else. */
  lemma LastSeenUpdateWritesOneColumn(stamp: string, c: Column)
    requires stamp != ""
    ensures Requested(LastSeenPatch(stamp), c).Some? <==> c == LastSeen
  {
  }

  /** The folder of the `contact-faces` bucket that contact images go to. */
  const ImageFolder: string := "contacts/"

  /** The storage key `deleteContact` removes for a contact whose `image_url` column is `imageUrl`:
      the folder followed by the URL's last `/`-separated segment, or nothing when that is empty. */
  function RemovalKey(imageUrl: Option<string>): (r: Option<string>)
    ensures r.Some? <==> imageUrl.Some? && imageUrl.value != "" &&
                         Split(imageUrl.value, '/')[|Split(imageUrl.value, '/')| - 1] != ""
    ensures r.Some? ==> r.value == ImageFolder + Split(imageUrl.value, '/')[|Split(imageUrl.value, '/')| - 1]
  {
    if imageUrl.None? || imageUrl.value == "" then None
    else
      LastSegmentIsLastPiece(imageUrl.value, '/');
      var segment := LastSegment(imageUrl.value, '/');
      if segment == "" then None else Some(ImageFolder + segment)
  }

  /** The key `saveContact` uploads an image under: `contacts/<timestamp>_<random>.jpg`. */
  function UploadPath(stamp: string, random: string): string {
    ImageFolder + stamp + "_" + random + ".jpg"
  }

  /** A `d`-free text after a prefix that ends in `d` is the last segment. */
  lemma LastSegmentAfter(prefix: string, file: string, d: char)
    requires |prefix| > 0 && prefix[|prefix| - 1] == d && d !in file
    ensures LastSegment(prefix + file, d) == file
  {
    var url := prefix + file;
    assert url[|url| - |file|..] == file;
    assert url[|url| - |file| - 1] == d;
    LastSegmentUnique(LastSegment(url, d), file, url, d);
  }

  /** The key removed for a URL whose last segment is a non-empty `file`. */
  lemma KeyOfLastSegment(url: string, file: string)
    requires LastSegment(url, '/') == file && file != ""
    ensures RemovalKey(Some(url)) == Some(ImageFolder + file)
  {
  }

  /** Deleting a contact removes the very image its save uploaded, provided the public URL ends in `/`
      followed by the upload path, and neither the timestamp nor the random part contains `/`. */
  lemma RemovesUploadedImage(base: string, stamp: string, random: string)
    requires '/' !in stamp && '/' !in random
    ensures RemovalKey(Some(base + "/" + UploadPath(stamp, random))) == Some(UploadPath(stamp, random))
  {
    var file := stamp + "_" + random + ".jpg";
    var prefix := base + "/" + ImageFolder;
    assert base + "/" + UploadPath(stamp, random) == prefix + file;
    assert ImageFolder + file == UploadPath(stamp, random);
    assert '/' !in file by {
      assert forall c :: c in file ==> c in stamp || c in random || c in "_.jpg";
    }
    LastSegmentAfter(prefix, file, '/');
    KeyOfLastSegment(prefix + file, file);
  }

  /** JavaScript's line terminators, which the regular expression `.` does not match. */
  predicate IsLineTerminator(c: char) {
    c == '\n' || c == '\r' || c == '\U{2028}' || c == '\U{2029}'
  }

  /** The index of the first `;` at or after `j`, unless a line terminator or the end of `s` comes first. */
  function SemicolonFrom(s: string, j: nat): (r: Option<nat>)
    ensures r.Some? ==> j <= r.value < |s| && s[r.value] == ';'
    ensures r.Some? ==> forall m :: j <= m < r.value ==> s[m] != ';' && !IsLineTerminator(s[m])
    ensures r.None? ==> forall m :: j <= m < |s| && s[m] == ';' ==> exists l :: j <= l < m && IsLineTerminator(s[l])
    decreases |s| - j
  {
    if j >= |s| || IsLineTerminator(s[j]) then None
    else if s[j] == ';' then Some(j)
    else SemicolonFrom(s, j + 1)
  }

  /** The capture group of `/:(.*?);/` in `s`, trying start positions from `i` on. */
  function MimeMatchFrom(s: string, i: nat): (r: Option<string>)
    ensures (forall m :: i <= m < |s| ==> s[m] != ':') ==> r.None?
    ensures r.Some? ==> ';' !in r.value && (forall c :: c in r.value ==> !IsLineTerminator(c))
    ensures r.Some? ==> Contains(s, [':'] + r.value + [';'])
    decreases |s| - i
  {
    if i >= |s| then None
    else if s[i] == ':' && SemicolonFrom(s, i + 1).Some? then
      var k := SemicolonFrom(s, i + 1).value;
      var m := s[i + 1..k];
      assert [':'] + m + [';'] <= s[i..] by {
        assert s[i..][..k + 1 - i] == [':'] + m + [';'];
      }
      ContainsAt(s, [':'] + m + [';'], i);
      Some(m)
    else MimeMatchFrom(s, i + 1)
  }

  /** `arr[0].match(/:(.*?);/)[1]`: none where the match fails, which is where `dataURLtoFile` throws. */
  function MimeType(header: string): Option<string> {
    MimeMatchFrom(header, 0)
  }

  /** Start positions before the first `:` yield no match of their own. */
  lemma {:induction false} MimeSkipsToColon(s: string, j: nat, i: nat)
    requires j <= i < |s|
    requires forall m :: j <= m < i ==> s[m] != ':'
    ensures MimeMatchFrom(s, j) == MimeMatchFrom(s, i)
    decreases i - j
  {
    if j < i {
      MimeSkipsToColon(s, j + 1, i);
    }
  }

  /** The first `;` after `j`, with no line terminator before it, is the one found. */
  lemma {:induction false} SemicolonAt(s: string, j: nat, k: nat)
    requires j <= k < |s| && s[k] == ';'
    requires forall m :: j <= m <= k ==> !IsLineTerminator(s[m])
    requires forall m :: j <= m < k ==> s[m] != ';'
    ensures SemicolonFrom(s, j) == Some(k)
    decreases k - j
  {
    if j < k {
      SemicolonAt(s, j + 1, k);
    }
  }

  /** Without line terminators, the mime type is the text between the first `:` and the next `;`. */
  lemma MimeBetweenColonAndSemicolon(header: string, i: nat, k: nat)
    requires forall m :: 0 <= m < |header| ==> !IsLineTerminator(header[m])
    requires i < k < |header| && header[i] == ':' && header[k] == ';'
    requires forall m :: 0 <= m < i ==> header[m] != ':'
    requires forall m :: i < m < k ==> header[m] != ';'
    ensures MimeType(header) == Some(header[i + 1..k])
  {
    MimeSkipsToColon(header, 0, i);
    SemicolonAt(header, i + 1, k);
  }

  newtype byte = x: int | 0 <= x < 256

  /** What a `Uint8Array` element keeps of `charCodeAt`: the code modulo 256. */
  function ByteOf(c: char): byte {
    (c as int % 256) as byte
  }

  /** A `File`: its bytes, name and mime type. */
  datatype File = File(bytes: seq<byte>, name: string, mimeType: string)

  /** The file `dataURLtoFile` builds, or none where it throws: `decoded` is what `atob` makes of the
      text after the first comma (none when `atob` throws). */
  function FileFrom(dataUrl: string, decoded: Option<string>, filename: string): Option<File> {
    var mime := MimeType(Split(dataUrl, ',')[0]);
    if mime.None? || decoded.None? then None
    else Some(File(seq(|decoded.value|, k requires 0 <= k < |decoded.value| => ByteOf(decoded.value[k])), filename, mime.value))
  }

  /** `dataURLtoFile`, filling the byte array from the end as its `while (n--)` loop does. */
  method DataUrlToFile(dataUrl: string, decoded: Option<string>, filename: string) returns (file: Option<File>)
    ensures file == FileFrom(dataUrl, decoded, filename)
    ensures file.Some? ==> |file.value.bytes| == |decoded.value|
    ensures file.Some? ==> forall k :: 0 <= k < |decoded.value| ==> file.value.bytes[k] == ByteOf(decoded.value[k])
  {
    var mime := MimeType(Split(dataUrl, ',')[0]);
    if mime.None? || decoded.None? {
      return None;
    }
    var bstr := decoded.value;
    var n := |bstr|;
    var u8arr := new byte[n];
    while n > 0
      invariant 0 <= n <= |bstr| == u8arr.Length
      invariant forall k :: n <= k < |bstr| ==> u8arr[k] == ByteOf(bstr[k])
    {
      n := n - 1;
      u8arr[n] := ByteOf(bstr[n]);
    }
    assert u8arr[..] == seq(|bstr|, k requires 0 <= k < |bstr| => ByteOf(bstr[k]));
    file := Some(File(u8arr[..], filename, mime.value));
  }

  /** The image upload of a save: the key and the file. */
  datatype Upload = Upload(path: string, file: File)

  /** How `saveContact` ends: rejected by an exception while decoding the image, `null`, or the new row's id. */
  datatype SaveResult = SaveRejected | SaveFailed | SavedId(id: string)

  /** `saveContact`. `fileStamp` and `pathStamp` are its two `Date.now()` readings, `random` the base-36 random
      part; `uploadFails`, `publicUrl` and `insertAnswer` (the inserted row's id, or none on an error) are the
      storage's and the database's answers. Returned are the upload made, the row inserted and the result. */
  method SaveContact(contact: Contact, decoded: Option<string>, fileStamp: string, pathStamp: string, random: string,
                     uploadFails: bool, publicUrl: string, insertAnswer: Option<string>)
    returns (upload: Option<Upload>, insert: Option<InsertRow>, result: SaveResult)
    ensures var file := FileFrom(contact.imageUrl, decoded, fileStamp + ".jpg");
            && (file.None? ==> upload.None? && insert.None? && result == SaveRejected)
            && (file.Some? ==> upload == Some(Upload(UploadPath(pathStamp, random), file.value)))
            && (file.Some? && uploadFails ==> insert.None? && result == SaveFailed)
            && (file.Some? && !uploadFails ==> insert == Some(InsertPayload(contact, publicUrl)))
            && (file.Some? && !uploadFails ==> result == if insertAnswer.Some? then SavedId(insertAnswer.value) else SaveFailed)
  {
    upload, insert := None, None;
    var imageFile := DataUrlToFile(contact.imageUrl, decoded, fileStamp + ".jpg");
    if imageFile.None? {
      return None, None, SaveRejected;
    }
    var imagePath := UploadPath(pathStamp, random);
    upload := Some(Upload(imagePath, imageFile.value));
    if uploadFails {
      return upload, None, SaveFailed;
    }
    insert := Some(InsertPayload(contact, publicUrl));
    if insertAnswer.None? {
      return upload, insert, SaveFailed;
    }
    result := SavedId(insertAnswer.value);
  }
}
