/** The feature side of the sentiment pipeline in `Program`: the words of a
    review become a variable-length vector of vocabulary ids, and the custom
    mapping action resizes that vector to the fixed length the pretrained
    model declares for its "Features" input. */
module Features {
  import opened Resize

  /** The number of ids the model's "Features" input holds. */
  const FeatureLength: nat := 600

  /** The column of mapped vocabulary ids, one per word of the review. */
  class VariableLength {
    var VariableLengthFeatures: array?<int>
  }

  /** The column handed to the model: declared as a vector of exactly
      `FeatureLength` ids. */
  class FixedLength {
    var Features: array?<int>

    /** The `[VectorType(FeatureLength)]` declaration of the column and
        nothing more: the shape the resize action establishes. */
    ghost predicate Valid()
      reads this
    {
      Features != null && Features.Length == FeatureLength
    }
  }

  /** The custom mapping action: resize the input row's id vector to
      `FeatureLength` entries and store the result in the output row. The
      input row is left as it was; when its vector already has the right
      length the output row shares that very array. */
  method ResizeFeaturesAction(s: VariableLength, f: FixedLength)
    modifies f
    ensures f.Valid()
    ensures f.Features[..] == Resized(old(Contents(s.VariableLengthFeatures)), FeatureLength)
    ensures s.VariableLengthFeatures == old(s.VariableLengthFeatures)
    ensures Contents(s.VariableLengthFeatures) == old(Contents(s.VariableLengthFeatures))
    ensures old(s.VariableLengthFeatures) != null && old(s.VariableLengthFeatures.Length) == FeatureLength
            ==> f.Features == s.VariableLengthFeatures
    ensures old(s.VariableLengthFeatures) == null || old(s.VariableLengthFeatures.Length) != FeatureLength
            ==> fresh(f.Features)
  {
    var features := s.VariableLengthFeatures;
    features := ArrayResize(features, FeatureLength);
    f.Features := features;
  }

  /** The vocabulary mapping of a tokenized review: each word replaced by its
      id, in order. The vocabulary lookup itself is a parameter. */
  function MapIds(tokens: seq<string>, lookup: string -> int): (ids: seq<int>)
    ensures |ids| == |tokens|
    ensures forall i :: 0 <= i < |tokens| ==> ids[i] == lookup(tokens[i])
  {
    if tokens == [] then [] else [lookup(tokens[0])] + MapIds(tokens[1..], lookup)
  }

  /** What the model receives for a tokenized review: the ids of the first
      `FeatureLength` words in order, then zeros up to `FeatureLength`. */
  function Encode(tokens: seq<string>, lookup: string -> int): (features: seq<int>)
    ensures |features| == FeatureLength
    ensures forall i :: 0 <= i < FeatureLength ==>
              features[i] == if i < |tokens| then lookup(tokens[i]) else 0
  {
    var ids := MapIds(tokens, lookup);
    ResizedAt(ids, FeatureLength);
    Resized(ids, FeatureLength)
  }

  /** Words past the first `FeatureLength` have no effect on the features. */
  lemma EncodeTruncates(tokens: seq<string>, lookup: string -> int)
    requires |tokens| > FeatureLength
    ensures Encode(tokens, lookup) == Encode(tokens[..FeatureLength], lookup)
  {
  }

  /** A review with no words is encoded as `FeatureLength` zeros. */
  lemma EncodeEmpty(lookup: string -> int)
    ensures Encode([], lookup) == Zeros(FeatureLength)
  {
  }

  /** The demo review "this film is really good", with the five words mapped
      to 1 through 5, is encoded as those ids followed by 595 zeros. */
  lemma EncodeDemoReview(lookup: string -> int)
    requires lookup("this") == 1 && lookup("film") == 2 && lookup("is") == 3
    requires lookup("really") == 4 && lookup("good") == 5
    ensures Encode(["this", "film", "is", "really", "good"], lookup) == [1, 2, 3, 4, 5] + Zeros(FeatureLength - 5)
  {
  }
}
