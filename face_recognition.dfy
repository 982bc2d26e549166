/**
 * The face_recognition library as this system uses it. Both the web
 * application and the enclave call the same two capabilities; their
 * floating-point internals are not modelled, so they are kept as values
 * of function type that every caller receives.
 */
module FaceRecognition {

  import opened Octets

  /** A decoded camera frame; its pixel layout is irrelevant here. */
  type Image = Bytes

  /** A face descriptor (128 floating-point numbers in the library). */
  type Encoding = seq<real>

  datatype FaceRecognizer = FaceRecognizer(
    /** `face_encodings(image)`: one encoding per face found, possibly none. */
    faceEncodings: Image -> seq<Encoding>,
    /** `compare_faces([known], candidate, tolerance=0.4)[0]`. */
    matches: (Encoding, Encoding) -> bool)
}
