/**
 * What a pickled model file can hold. The classifier itself is opaque: only
 * its identity is kept, and its `predict` is supplied by the caller.
 */
module Artifact {
  import opened LabelEncoder

  /** A fitted sklearn classifier, known only by identity. */
  datatype Classifier = Classifier(id: nat)

  /**
   * The Python value held in the serving process's `model` global: `None`,
   * a classifier, or some other object whose `predict` cannot be called.
   */
  datatype ModelValue = Absent | Fitted(classifier: Classifier) | Unusable

  /** The object `pickle.load` returns, by shape. */
  datatype Loaded =
    | Triple(model: ModelValue, encoders: map<string, Encoder>, replaceMap: map<string, string>)
    | Pair(model: ModelValue, encoders: map<string, Encoder>)
    | Other(model: ModelValue)
}
