# MLTFDemo sentiment pipeline — Dafny model

MLTFDemo classifies a movie review with a pretrained TensorFlow network run
through ML.NET. The review text is split into words. Each word is mapped to an
integer id from the `imdb_word_index.csv` vocabulary. The resulting
variable-length id vector is resized to exactly `FeatureLength` = 600 entries
by a custom mapping action (`ResizeFeaturesAction`), and that vector is fed to
the model. The model's two-entry "Prediction/Softmax" output is read as
positive exactly when the positive entry is above 0.5.

This project models the two parts of that pipeline that the program itself
defines:

- `resize.dfy`, module `Resize`: the behaviour of .NET's
  `Array.Resize<int>`, which the action relies on. `Resized` is a reference
  definition on sequences, written position by position. Lemmas give its
  length, prefix, zero-padding, truncation, empty-input, same-length and
  idempotence properties. `ArrayResize` is the array operation, with a
  copy loop, proved against `Resized`. It keeps the aliasing of the real call:
  an array that already has the target length comes back as the same object.
  Otherwise the result is a freshly allocated, zero-filled array, and the old
  array is never written.
- `features.dfy`, module `Features`: `FeatureLength` and the
  `VariableLength` / `FixedLength` row classes. `ResizeFeaturesAction` is a
  method that assigns the output row's `Features` field. `MapIds` and `Encode`
  compose the vocabulary lookup, given as a parameter, with the resize. This
  gives the end-to-end encoding: the ids of the first 600 words in order,
  then zeros.
- `sentiment.dfy`, module `Sentiment`: the `MovieReviewSentimentPrediction`
  row as a datatype over `real`, and the decision `IsPositive`. The lemmas
  pin down the strict boundary.

What the code does not do, so the model leaves it out:

- The code computes no confidence value. "Prediction Confidence: 0.65"
  appears only in a comment in `PredictSentiment`.
- The code does not check that the scores sum to 1.
- The code does not check the prediction vector's length at run time. The
  length of 2 comes from the `[VectorType(2)]` declaration, so it is a
  precondition here.
- The code sets no unknown-word id of its own. What the vocabulary mapping
  does with a word missing from the vocabulary is decided inside ML.NET's
  `MapValue`. The lookup is therefore an uninterpreted total parameter.

## Model

| member | source | states |
|---|---|---|
| `Resize.Resized` | MLTFDemo/Program.cs:31 | the resized vector has exactly the requested number of entries, whatever the input length |
| `Resize.ResizedAt` | MLTFDemo/Program.cs:31 | position i of the resized vector is input entry i when the input has one, and 0 (the default of a new `int[]`) otherwise |
| `Resize.ResizedKeepsPrefix` | MLTFDemo/Program.cs:30-31 | an input of n <= size entries appears unchanged, in order, in positions 0..n-1 |
| `Resize.ResizedPadsWithZeros` | MLTFDemo/Program.cs:31 | for an input of n < size entries, every position from n to size-1 is 0 |
| `Resize.ResizedTruncates` | MLTFDemo/Program.cs:31 | an input longer than the size is cut to its first `size` entries; the tail is dropped |
| `Resize.ResizedClosedForm` | MLTFDemo/Program.cs:31 | the resized vector is the input's prefix when it is long enough, else the input followed by exactly the missing number of zeros |
| `Resize.ResizedEmpty` | MLTFDemo/Program.cs:31 | an empty input resizes to all zeros |
| `Resize.ResizedSameLength` | MLTFDemo/Program.cs:31 | resizing to the length the vector already has returns it unchanged |
| `Resize.ResizedIdempotent` | MLTFDemo/Program.cs:31 | resizing an already-resized vector to the same size gives the same vector |
| `Resize.ArrayResize` | MLTFDemo/Program.cs:31 | `Array.Resize`: the result has the new length and the contents of `Resized` of the old contents; the very same array comes back when the length already matches, otherwise a fresh one; a null array counts as empty; the old array is not written |
| `Features.ResizeFeaturesAction` | MLTFDemo/Program.cs:28-33 | the output row's `Features` holds exactly `FeatureLength` ids, equal to the input ids resized; the input row and its array are unchanged; the output shares the input array exactly when that array already has 600 entries |
| `Features.MapIds` | MLTFDemo/Program.cs:47-48 | the mapped vector has one id per word, and id i is the lookup of word i |
| `Features.Encode` | MLTFDemo/Program.cs:45-49 | the model input has exactly `FeatureLength` (600) entries: the ids of the words in order for the first min(n, 600) positions, 0 in every later position |
| `Features.EncodeTruncates` | MLTFDemo/Program.cs:28-33 | for more than 600 words, the encoding equals that of the first 600 words |
| `Features.EncodeEmpty` | MLTFDemo/Program.cs:28-33 | a review with no words is encoded as 600 zeros |
| `Features.EncodeDemoReview` | MLTFDemo/Program.cs:63-66 | the demo review "this film is really good", with its words mapped to 1..5, is encoded as [1,2,3,4,5] followed by 595 zeros |
| `Sentiment.DecisionBoundary` | MLTFDemo/Program.cs:71 | meaning of `IsPositive`, the comparison `Prediction[1] > 0.5`: a positive score of exactly 0.5 or below is "No."; any score above 0.5 is "Yes.", whatever the negative score; [0.3, 0.7] is "Yes.", [0.9, 0.1] and [0.5, 0.5] are "No." |
| `Sentiment.DecisionDependsOnPositiveScore` | MLTFDemo/Program.cs:71 | the decision depends on entry 1 alone and is monotone in it |

## Left out

- Loading the vocabulary with `LoadFromTextFile`, building and fitting the ML.NET pipeline, and creating the prediction engine: file I/O and library orchestration.
- `TokenizeIntoWords`: ML.NET's word splitting is not visible. The model starts from the token sequence.
- `MapValue`: ML.NET's vocabulary mapping is not visible, including what it does with a missing word. It is the uninterpreted total parameter `lookup`, and no unknown-id policy is assumed.
- `LoadTensorFlowModel`, `GetModelSchema` and `ScoreTensorFlowModel`: the pretrained network is opaque. No softmax, sum-to-one or tolerance property is modelled, since the code checks none.
- Confidence reporting: no code computes or prints a confidence.
- The `Console.WriteLine` diagnostics, apart from the yes/no decision they print.
- `Sentiment.IsPositive`: the scores are single-precision floats in the program and exact reals here. A NaN score (which the program would report as "No.") and float rounding are not modelled. 0.5 is exact in both.
- Ids are 32-bit integers in the program and unbounded here. The resize does no arithmetic on them, so nothing depends on the width.
- `Resize.ArrayResize`: a negative new size, for which `Array.Resize` throws, cannot arise. The size is a `nat`, and the program always passes 600.
- The ML.NET run-time check that a `[VectorType(600)]` column really holds 600 entries. The model proves that the action always produces 600 entries instead.
