/** app/enroll/page.tsx: capturing a face, retaking it, and submitting the enrollment form. */
module Enroll {
  import opened Wrappers
  import opened Types
  import opened Strings
  import opened Storage
  import Seqs

  const NoFaceError: string := "No face detected. Please ensure your face is clearly visible."
  const DetectionError: string := "Error detecting face. Please try again."
  const NoCaptureError: string := "Please capture a photo first."
  const RequiredFieldsError: string := "Name and Company are required."

  /** The text fields of the form, as typed; `tags` is one comma-separated string. */
  datatype FormData = FormData(
    name: string, company: string, title: string, linkedinUrl: string,
    email: string, phone: string, notes: string, tags: string)

  /** What `detectFaceAndGetDescriptor` does with the captured canvas. */
  datatype Extraction = Extracted(descriptor: Descriptor) | NotDetected | ExtractionThrew

  /** What a submit leads to: an error message shown, a saved contact followed by the move to the
      contact list, or an exception out of `saveContact`. */
  datatype SubmitOutcome = Rejected(message: string) | Saved(contact: Contact) | Threw

  /** `tags ? tags.split(',').map(t => t.trim()) : []`. */
  function ParseTags(tags: string): (r: seq<string>)
    ensures tags == "" ==> r == []
    ensures tags != "" ==> |r| == multiset(tags)[','] + 1
    ensures tags != "" ==> forall k :: 0 <= k < |r| ==> r[k] == Trim(Split(tags, ',')[k])
    ensures forall k :: 0 <= k < |r| ==> IsTrimmed(r[k]) && ',' !in r[k]
  {
    if tags == "" then []
    else
      var pieces := Split(tags, ',');
      var r := Seqs.Map(pieces, Trim);
      forall k | 0 <= k < |r| ensures ',' !in r[k] {
        var i := TrimOffset(pieces[k]);
        assert r[k] == pieces[k][i..i + |r[k]|];
      }
      r
  }

  /** Tags written without spaces around the commas come back unchanged when joined again. */
  lemma TagsRoundTrip(tags: string)
    requires tags != ""
    requires forall k :: 0 <= k < |Split(tags, ',')| ==> IsTrimmed(Split(tags, ',')[k])
    ensures Join(ParseTags(tags), ',') == tags
  {
    var pieces := Split(tags, ',');
    forall k | 0 <= k < |pieces| ensures ParseTags(tags)[k] == pieces[k] {
      TrimTrimmed(pieces[k]);
    }
    assert ParseTags(tags) == pieces;
    JoinSplit(tags, ',');
  }

  /** The contact `handleSubmit` builds from the form, the captured face and image, the id
      (`Date.now()`) and the creation time. */
  function NewContact(form: FormData, descriptor: Descriptor, image: string, id: string, createdAt: string): (c: Contact)
    ensures c.faceDescriptor == descriptor && c.imageUrl == image
    ensures c.id == id && c.createdAt == createdAt && c.lastSeen.None?
    ensures c.tags == Some(ParseTags(form.tags))
    ensures FormData(c.name, c.company, c.title, c.linkedinUrl, c.email.GetOr(""), c.phone.GetOr(""),
                     c.notes.GetOr(""), form.tags) == form
    ensures c.email == Some(form.email) && c.phone == Some(form.phone) && c.notes == Some(form.notes)
  {
    Contact(id, form.name, form.company, form.title, form.linkedinUrl, Some(form.email), Some(form.phone),
            Some(form.notes), Some(ParseTags(form.tags)), descriptor, image, createdAt, None)
  }

  /** The enrollment page's state. */
  class EnrollForm {
    var faceDescriptor: Option<Descriptor>
    var capturedImage: string
    var formData: FormData
    var isProcessing: bool
    var error: string
    const store: ContactStore

    constructor (store: ContactStore)
      ensures this.store == store
      ensures faceDescriptor.None? && capturedImage == "" && !isProcessing && error == ""
      ensures formData == FormData("", "", "", "", "", "", "", "")
    {
      this.store := store;
      faceDescriptor, capturedImage := None, "";
      formData := FormData("", "", "", "", "", "", "", "");
      isProcessing, error := false, "";
    }

    /** `handleCapture`: `extraction` is what the face model makes of the canvas, `dataUrl` the canvas as a
        JPEG data URL. */
    method HandleCapture(extraction: Extraction, dataUrl: string)
      modifies this`faceDescriptor, this`capturedImage, this`isProcessing, this`error
      ensures !isProcessing
      ensures extraction.NotDetected? ==>
                error == NoFaceError && faceDescriptor == old(faceDescriptor) && capturedImage == old(capturedImage)
      ensures extraction.ExtractionThrew? ==>
                error == DetectionError && faceDescriptor == old(faceDescriptor) && capturedImage == old(capturedImage)
      ensures extraction.Extracted? ==>
                error == "" && faceDescriptor == Some(extraction.descriptor) && capturedImage == dataUrl
    {
      isProcessing := true;
      error := "";
      match extraction {
        case ExtractionThrew =>
          error := DetectionError;
          isProcessing := false;
        case NotDetected =>
          error := NoFaceError;
          isProcessing := false;
        case Extracted(descriptor) =>
          faceDescriptor := Some(descriptor);
          capturedImage := dataUrl;
          isProcessing := false;
      }
    }

    /** The "Retake Photo" button. */
    method Retake()
      modifies this`faceDescriptor, this`capturedImage
      ensures faceDescriptor.None? && capturedImage == ""
    {
      faceDescriptor := None;
      capturedImage := "";
    }

    /** `handleSubmit`: the capture is checked first, then the two required fields; only their first failure
        is reported. `id` and `createdAt` are the clock readings the contact is built with. */
    method HandleSubmit(id: string, createdAt: string) returns (outcome: SubmitOutcome)
      modifies this`error, store
      ensures faceDescriptor.None? || capturedImage == "" ==>
                outcome == Rejected(NoCaptureError) && error == NoCaptureError && unchanged(store)
      ensures faceDescriptor.Some? && capturedImage != "" && (formData.name == "" || formData.company == "") ==>
                outcome == Rejected(RequiredFieldsError) && error == RequiredFieldsError && unchanged(store)
      ensures faceDescriptor.Some? && capturedImage != "" && formData.name != "" && formData.company != "" ==>
                var contact := NewContact(formData, faceDescriptor.value, capturedImage, id, createdAt);
                && error == old(error)
                && outcome == (if store.hasWindow then Saved(contact) else Threw)
                && store.AllContacts() == (if store.hasWindow then old(store.AllContacts()) + [contact]
                                           else old(store.AllContacts()))
                && store.interactionsData == old(store.interactionsData)
                && (!store.hasWindow ==> unchanged(store))
    {
      if faceDescriptor.None? || capturedImage == "" {
        error := NoCaptureError;
        return Rejected(NoCaptureError);
      }
      if formData.name == "" || formData.company == "" {
        error := RequiredFieldsError;
        return Rejected(RequiredFieldsError);
      }
      var contact := NewContact(formData, faceDescriptor.value, capturedImage, id, createdAt);
      var thrown := store.SaveContact(contact);
      outcome := if thrown then Threw else Saved(contact);
    }
  }
}
