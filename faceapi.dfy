/** The boundary to the face-api library (lib/faceapi.ts). The library itself is not modelled: the detector's
    output is an input of the recognition cycle and the matcher is an arbitrary function. */
module FaceApi {
  import opened Types

  /** `new LabeledFaceDescriptors(label, descriptors)`. */
  datatype LabeledFaceDescriptors = LabeledFaceDescriptors(labelText: string, descriptors: seq<Descriptor>)

  /** `FaceMatch`: the best gallery label for a descriptor, or `'unknown'`. */
  datatype FaceMatch = FaceMatch(labelText: string, distance: real)

  /** A face detected in a video frame; its bounding box is only drawn, so it is left out. */
  datatype Detection = Detection(descriptor: Descriptor)

  /** The label `FaceMatcher` gives a descriptor that no gallery entry is close enough to. */
  const UnknownLabel: string := "unknown"

  /** The distance threshold `findBestMatch` configures its `FaceMatcher` with. */
  const MatchThreshold: real := 0.6

  /** What `FaceMatcher.findBestMatch` computes from a gallery, a threshold and a descriptor. */
  type Matcher = (seq<LabeledFaceDescriptors>, real, Descriptor) -> FaceMatch

  /** `findBestMatch`: a fresh matcher over the gallery with threshold 0.6. */
  function FindBestMatch(matcher: Matcher, descriptor: Descriptor, gallery: seq<LabeledFaceDescriptors>): FaceMatch {
    matcher(gallery, MatchThreshold, descriptor)
  }
}
