/** app/recognize/page.tsx: one polling cycle of `detectFaces`, and stopping the camera. */
module Recognize {
  import opened Wrappers
  import opened Types
  import opened FaceApi
  import opened Storage
  import Seqs

  /** The delay, in milliseconds, after which `detectFaces` schedules itself again. */
  const PollDelayMs: nat := 100

  /** The gallery handed to the matcher: one entry per contact, labelled by the contact's name. */
  function Gallery(contacts: seq<Contact>): (r: seq<LabeledFaceDescriptors>)
    ensures |r| == |contacts|
    ensures forall k :: 0 <= k < |r| ==> r[k].labelText == contacts[k].name && r[k].descriptors == [contacts[k].faceDescriptor]
  {
    Seqs.Map(contacts, (c: Contact) => LabeledFaceDescriptors(c.name, [c.faceDescriptor]))
  }

  function HasName(name: string): Contact -> bool {
    (c: Contact) => c.name == name
  }

  /** The contact a match label designates: none for `'unknown'`, else the first contact with that name. */
  function Resolve(contacts: seq<Contact>, tag: string): Option<Contact> {
    if tag == UnknownLabel then None else Seqs.Find(contacts, HasName(tag))
  }

  /** A label resolves exactly when it is not `'unknown'` and some contact has that name; it then resolves to
      the first such contact. */
  lemma ResolveSpec(contacts: seq<Contact>, tag: string)
    ensures var r := Resolve(contacts, tag);
            && (r.Some? <==> tag != UnknownLabel && exists k :: 0 <= k < |contacts| && contacts[k].name == tag)
            && (r.Some? ==> r.value.name == tag &&
                            exists k :: 0 <= k < |contacts| && contacts[k] == r.value &&
                                        forall j :: 0 <= j < k ==> contacts[j].name != tag)
  {
    if tag != UnknownLabel {
      var r := Seqs.Find(contacts, HasName(tag));
      if r.None? {
        assert forall k :: 0 <= k < |contacts| ==> !HasName(tag)(contacts[k]);
      }
    }
  }

  /** A label other than `'unknown'` designates the first contact with that name. */
  lemma ResolveKnown(contacts: seq<Contact>, tag: string)
    requires tag != UnknownLabel
    ensures Resolve(contacts, tag) == Seqs.Find(contacts, HasName(tag))
  {
  }

  /** The label the matcher gives each detection. */
  function Labels(matcher: Matcher, detections: seq<Detection>, gallery: seq<LabeledFaceDescriptors>): (r: seq<string>)
    ensures |r| == |detections|
    ensures forall k :: 0 <= k < |r| ==> r[k] == FindBestMatch(matcher, detections[k].descriptor, gallery).labelText
  {
    seq(|detections|, k requires 0 <= k < |detections| => FindBestMatch(matcher, detections[k].descriptor, gallery).labelText)
  }

  /** The recognised contact after the first `n` detections, their labels being `labels`. */
  function RecognizedAfter(contacts: seq<Contact>, labels: seq<string>, n: nat, initial: Option<Contact>): Option<Contact>
    requires n <= |labels|
  {
    if n == 0 then initial
    else
      match Resolve(contacts, labels[n - 1])
      case Some(c) => Some(c)
      case None => RecognizedAfter(contacts, labels, n - 1, initial)
  }

  /** One `updateContact(id, { lastSeen: stamp })` call. */
  datatype Touch = Touch(id: string, stamp: string)

  /** The last-seen write detection `k` makes, if its label resolves; `clock(k)` is the time read for it. */
  function TouchAt(contacts: seq<Contact>, labels: seq<string>, clock: nat -> string, k: nat): Option<Touch>
    requires k < |labels|
  {
    match Resolve(contacts, labels[k])
    case Some(c) => Some(Touch(c.id, clock(k)))
    case None => None
  }

  /** The last-seen writes made for the first `n` detections, in order. */
  function TouchesAfter(contacts: seq<Contact>, labels: seq<string>, clock: nat -> string, n: nat): seq<Touch>
    requires n <= |labels|
  {
    Seqs.Somes(seq(n, k requires 0 <= k < n => TouchAt(contacts, labels, clock, k)))
  }

  /** The stored list after a sequence of last-seen writes. */
  function ApplyTouches(cs: seq<Contact>, ts: seq<Touch>): seq<Contact>
  {
    if ts == [] then cs
    else
      var t := ts[|ts| - 1];
      UpdatedContacts(ApplyTouches(cs, ts[..|ts| - 1]), t.id, LastSeenPatch(t.stamp))
  }

  /** One more write on top of a sequence of writes. */
  lemma ApplyOneMore(cs: seq<Contact>, ts: seq<Touch>, t: Touch)
    ensures ApplyTouches(cs, ts + [t]) == UpdatedContacts(ApplyTouches(cs, ts), t.id, LastSeenPatch(t.stamp))
  {
    assert (ts + [t])[..|ts|] == ts;
  }

  /** What detection `n` does to the recognised contact and to the store, `matched` being its contact. */
  lemma MatchStep(contacts: seq<Contact>, labels: seq<string>, clock: nat -> string, n: nat, initial: Option<Contact>,
                  stored: seq<Contact>, matched: Option<Contact>)
    requires n < |labels| && matched == Resolve(contacts, labels[n])
    ensures matched.Some? ==>
              && RecognizedAfter(contacts, labels, n + 1, initial) == matched
              && ApplyTouches(stored, TouchesAfter(contacts, labels, clock, n + 1)) ==
                 UpdatedContacts(ApplyTouches(stored, TouchesAfter(contacts, labels, clock, n)), matched.value.id,
                                 LastSeenPatch(clock(n)))
    ensures matched.None? ==>
              && RecognizedAfter(contacts, labels, n + 1, initial) == RecognizedAfter(contacts, labels, n, initial)
              && TouchesAfter(contacts, labels, clock, n + 1) == TouchesAfter(contacts, labels, clock, n)
  {
    AfterOneMore(contacts, labels, clock, n, initial);
    if matched.Some? {
      ApplyOneMore(stored, TouchesAfter(contacts, labels, clock, n), Touch(matched.value.id, clock(n)));
    }
  }

  /** Detections whose labels resolve to no contact change neither the recognised contact nor the store. */
  lemma {:induction false} UnmatchedChangesNothing(contacts: seq<Contact>, labels: seq<string>, clock: nat -> string,
                                                   n: nat, initial: Option<Contact>)
    requires n <= |labels|
    requires forall k :: 0 <= k < n ==> Resolve(contacts, labels[k]).None?
    ensures RecognizedAfter(contacts, labels, n, initial) == initial
    ensures TouchesAfter(contacts, labels, clock, n) == []
  {
    if n > 0 {
      UnmatchedChangesNothing(contacts, labels, clock, n - 1, initial);
      assert Resolve(contacts, labels[n - 1]).None?;
      AfterOneMore(contacts, labels, clock, n - 1, initial);
    }
  }

  /** The recognised contact is the one from the last detection whose label resolves. */
  lemma {:induction false} LastMatchWins(contacts: seq<Contact>, labels: seq<string>, n: nat, initial: Option<Contact>, j: nat)
    requires j < n <= |labels|
    requires Resolve(contacts, labels[j]).Some?
    requires forall k :: j < k < n ==> Resolve(contacts, labels[k]).None?
    ensures RecognizedAfter(contacts, labels, n, initial) == Resolve(contacts, labels[j])
  {
    if n - 1 != j {
      LastMatchWins(contacts, labels, n - 1, initial, j);
    }
  }

  /** The first `n + 1` detections: the `n`-th one's contact, if its label resolves, becomes the recognised one
      and gets one more last-seen write. */
  lemma AfterOneMore(contacts: seq<Contact>, labels: seq<string>, clock: nat -> string, n: nat, initial: Option<Contact>)
    requires n < |labels|
    ensures var r := Resolve(contacts, labels[n]);
            r.Some? ==> && RecognizedAfter(contacts, labels, n + 1, initial) == r
                        && TouchesAfter(contacts, labels, clock, n + 1) ==
                           TouchesAfter(contacts, labels, clock, n) + [Touch(r.value.id, clock(n))]
    ensures Resolve(contacts, labels[n]).None? ==>
              && RecognizedAfter(contacts, labels, n + 1, initial) == RecognizedAfter(contacts, labels, n, initial)
              && TouchesAfter(contacts, labels, clock, n + 1) == TouchesAfter(contacts, labels, clock, n)
  {
    TouchesOneMore(contacts, labels, clock, n);
    var x := TouchAt(contacts, labels, clock, n);
    if x.None? {
      assert TouchesAfter(contacts, labels, clock, n) + [] == TouchesAfter(contacts, labels, clock, n);
    }
  }

  /** The writes of the first `n + 1` detections are those of the first `n`, then that of detection `n`. */
  lemma TouchesOneMore(contacts: seq<Contact>, labels: seq<string>, clock: nat -> string, n: nat)
    requires n < |labels|
    ensures var x := TouchAt(contacts, labels, clock, n);
            TouchesAfter(contacts, labels, clock, n + 1) ==
            TouchesAfter(contacts, labels, clock, n) + if x.Some? then [x.value] else []
  {
    var os := seq(n + 1, k requires 0 <= k < n + 1 => TouchAt(contacts, labels, clock, k));
    assert os[..n] == seq(n, k requires 0 <= k < n => TouchAt(contacts, labels, clock, k));
  }

  /** The last-seen writes are exactly those of the detections whose labels resolve: each such detection
      writes its contact's id with the time read for it, and nothing else writes. */
  lemma TouchesAreMatches(contacts: seq<Contact>, labels: seq<string>, clock: nat -> string, n: nat)
    requires n <= |labels|
    ensures forall t :: t in TouchesAfter(contacts, labels, clock, n) <==>
              exists k :: 0 <= k < n && TouchAt(contacts, labels, clock, k) == Some(t)
  {
    var os := seq(n, k requires 0 <= k < n => TouchAt(contacts, labels, clock, k));
    Seqs.SomesContains(os);
    assert forall k :: 0 <= k < n ==> os[k] == TouchAt(contacts, labels, clock, k);
  }

  /** Last-seen writes keep the length and change no field but `lastSeen`. */
  lemma {:induction false} TouchesChangeOnlyLastSeen(cs: seq<Contact>, ts: seq<Touch>)
    ensures |ApplyTouches(cs, ts)| == |cs|
    ensures forall k :: 0 <= k < |cs| ==> ApplyTouches(cs, ts)[k].(lastSeen := cs[k].lastSeen) == cs[k]
    decreases |ts|
  {
    if ts != [] {
      var t := ts[|ts| - 1];
      var before := ApplyTouches(cs, ts[..|ts| - 1]);
      TouchesChangeOnlyLastSeen(cs, ts[..|ts| - 1]);
      forall k | 0 <= k < |before| ensures ApplyPatch(before[k], LastSeenPatch(t.stamp)) == before[k].(lastSeen := Some(t.stamp)) {
        LastSeenPatchTouchesOnlyLastSeen(before[k], t.stamp);
      }
    }
  }

  /** A media track of the camera stream. */
  class MediaTrack {
    var live: bool

    constructor ()
      ensures live
    {
      live := true;
    }

    method Stop()
      modifies this
      ensures !live
    {
      live := false;
    }
  }

  /** The state of the recognition page that one cycle reads and writes. */
  class RecognizePage {
    /** `videoRef.current`, `canvasRef.current` and the loaded face-api module are present. */
    var hasVideo: bool
    var hasCanvas: bool
    var faceApiLoaded: bool
    var isScanning: bool
    /** The contacts loaded from the store when the models became ready. */
    var contacts: seq<Contact>
    var recognizedContact: Option<Contact>
    /** The camera stream attached to the video element, as its tracks. */
    var srcObject: Option<seq<MediaTrack>>
    const store: ContactStore

    constructor (store: ContactStore, contacts: seq<Contact>)
      ensures this.store == store && this.contacts == contacts
      ensures !hasVideo && !hasCanvas && !faceApiLoaded && !isScanning
      ensures recognizedContact.None? && srcObject.None?
    {
      this.store := store;
      this.contacts := contacts;
      hasVideo, hasCanvas, faceApiLoaded, isScanning := false, false, false, false;
      recognizedContact, srcObject := None, None;
    }

    /** Whether the guard at the top of `detectFaces` lets the cycle proceed. */
    predicate Ready()
      reads this
    {
      hasVideo && hasCanvas && isScanning && faceApiLoaded
    }

    /** One `detectFaces` cycle. `found` is what the detector finds in the current frame, or none when
        `detectAllFaces` rejects; `hasContext` is whether the canvas yields a 2-d context, `clock(k)` the time
        read for detection `k`. The result is the delay of the next cycle, or none when the cycle does not
        schedule one: a failed guard returns early, and a rejected detection rejects the whole cycle before it
        reaches `setTimeout`. */
    method DetectFaces(paused: bool, ended: bool, found: Option<seq<Detection>>, hasContext: bool,
                       matcher: Matcher, clock: nat -> string)
      returns (next: Option<nat>)
      modifies this`recognizedContact, store
      ensures !old(Ready()) ==> next.None? && recognizedContact == old(recognizedContact) && unchanged(store)
      ensures old(Ready()) && (paused || ended) ==>
                next == Some(PollDelayMs) && recognizedContact == old(recognizedContact) && unchanged(store)
      ensures old(Ready()) && !paused && !ended && found.None? ==>
                next.None? && recognizedContact == old(recognizedContact) && unchanged(store)
      ensures old(Ready()) && !paused && !ended && found.Some? ==> next == Some(PollDelayMs)
      ensures old(Ready()) && !paused && !ended && found.Some? && !hasContext ==>
                recognizedContact == old(recognizedContact) && unchanged(store)
      ensures old(Ready()) && !paused && !ended && found.Some? && hasContext && |found.value| == 0 ==>
                recognizedContact.None? && unchanged(store)
      ensures old(Ready()) && !paused && !ended && found.Some? && hasContext && |found.value| > 0 ==>
                var labels := Labels(matcher, found.value, Gallery(contacts));
                && recognizedContact == RecognizedAfter(contacts, labels, |labels|, old(recognizedContact))
                && store.AllContacts() == ApplyTouches(old(store.AllContacts()), TouchesAfter(contacts, labels, clock, |labels|))
                && store.interactionsData == old(store.interactionsData)
    {
      if !hasVideo || !hasCanvas || !isScanning || !faceApiLoaded {
        return None;
      }
      if paused || ended {
        return Some(PollDelayMs);
      }
      if found.None? {
        return None;
      }
      var detections := found.value;
      if hasContext {
        if |detections| > 0 {
          var gallery := Gallery(contacts);
          MatchDetections(detections, gallery, matcher, clock);
        } else {
          recognizedContact := None;
        }
      }
      return Some(PollDelayMs);
    }

    /** The `forEach` over the detections: each label that resolves to a contact makes it the recognised
        one and writes its last-seen time. */
    method MatchDetections(detections: seq<Detection>, gallery: seq<LabeledFaceDescriptors>,
                           matcher: Matcher, clock: nat -> string)
      modifies this`recognizedContact, store
      ensures var labels := Labels(matcher, detections, gallery);
              && recognizedContact == RecognizedAfter(contacts, labels, |labels|, old(recognizedContact))
              && store.AllContacts() == ApplyTouches(old(store.AllContacts()), TouchesAfter(contacts, labels, clock, |labels|))
              && store.interactionsData == old(store.interactionsData)
    {
      ghost var labels := Labels(matcher, detections, gallery);
      ghost var stored := store.AllContacts();
      for i := 0 to |detections|
        invariant recognizedContact == RecognizedAfter(contacts, labels, i, old(recognizedContact))
        invariant store.AllContacts() == ApplyTouches(stored, TouchesAfter(contacts, labels, clock, i))
        invariant store.interactionsData == old(store.interactionsData)
      {
        var best := FindBestMatch(matcher, detections[i].descriptor, gallery);
        assert best.labelText == labels[i];
        if best.labelText != UnknownLabel {
          var matchedContact := Seqs.Find(contacts, HasName(best.labelText));
          ResolveKnown(contacts, best.labelText);
          MatchStep(contacts, labels, clock, i, old(recognizedContact), stored, matchedContact);
          if matchedContact.Some? {
            recognizedContact := matchedContact;
            store.UpdateContact(matchedContact.value.id, LastSeenPatch(clock(i)));
          }
        } else {
          MatchStep(contacts, labels, clock, i, old(recognizedContact), stored, None);
        }
      }
    }

    /** `stopWebcam`: stop every track of the attached stream, if there is a video element and a stream. */
    method StopWebcam()
      modifies if hasVideo && srcObject.Some? then set t | t in srcObject.value else {}
      ensures hasVideo && srcObject.Some? ==> forall t :: t in srcObject.value ==> !t.live
    {
      if hasVideo && srcObject.Some? {
        var tracks := srcObject.value;
        for i := 0 to |tracks|
          invariant forall k :: 0 <= k < i ==> !tracks[k].live
        {
          tracks[i].Stop();
        }
      }
    }

    /** The "Stop Recognition" button: leave scanning mode and stop the camera. The recognised contact stays. */
    method StopRecognition()
      modifies this`isScanning, if hasVideo && srcObject.Some? then set t | t in srcObject.value else {}
      ensures !isScanning && !Ready()
      ensures recognizedContact == old(recognizedContact)
      ensures hasVideo && srcObject.Some? ==> forall t :: t in srcObject.value ==> !t.live
    {
      isScanning := false;
      StopWebcam();
    }
  }
}
