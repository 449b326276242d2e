/**
 * The records exchanged by the scorer and the batch runner: one patient's input,
 * the prediction made for it, and one feature's contribution to that prediction.
 */
module Types {
  import opened Wrappers
  import opened Numbers

  /** The ten measurements of a patient record. */
  datatype Feature =
    | MeanRadius | MeanTexture | MeanPerimeter | MeanArea | MeanSmoothness
    | WorstRadius | WorstTexture | WorstPerimeter | WorstArea | WorstSmoothness

  /** The measurements in the order their keys are declared in a patient record. */
  const Features: seq<Feature> := [
    MeanRadius, MeanTexture, MeanPerimeter, MeanArea, MeanSmoothness,
    WorstRadius, WorstTexture, WorstPerimeter, WorstArea, WorstSmoothness
  ]

  /** The property key (and CSV column name) of a measurement. */
  function Key(f: Feature): string {
    match f
    case MeanRadius => "meanRadius"
    case MeanTexture => "meanTexture"
    case MeanPerimeter => "meanPerimeter"
    case MeanArea => "meanArea"
    case MeanSmoothness => "meanSmoothness"
    case WorstRadius => "worstRadius"
    case WorstTexture => "worstTexture"
    case WorstPerimeter => "worstPerimeter"
    case WorstArea => "worstArea"
    case WorstSmoothness => "worstSmoothness"
  }

  /** Every measurement appears in `Features`, exactly once. */
  lemma FeaturesEnumerateAll(f: Feature)
    ensures f in Features
    ensures forall i, j :: 0 <= i < j < |Features| ==> Features[i] != Features[j]
  {
  }

  /** A patient record: identifier, optional name and age, and the ten measurements. */
  datatype PatientData = PatientData(
    id: string,
    name: Option<string>,
    age: Option<Number>,
    meanRadius: Number,
    meanTexture: Number,
    meanPerimeter: Number,
    meanArea: Number,
    meanSmoothness: Number,
    worstRadius: Number,
    worstTexture: Number,
    worstPerimeter: Number,
    worstArea: Number,
    worstSmoothness: Number)
  {
    /** The value stored under a measurement's key. */
    function Value(f: Feature): Number {
      match f
      case MeanRadius => meanRadius
      case MeanTexture => meanTexture
      case MeanPerimeter => meanPerimeter
      case MeanArea => meanArea
      case MeanSmoothness => meanSmoothness
      case WorstRadius => worstRadius
      case WorstTexture => worstTexture
      case WorstPerimeter => worstPerimeter
      case WorstArea => worstArea
      case WorstSmoothness => worstSmoothness
    }
  }

  /** The keys of a patient record, as `Object.entries` lists them. */
  datatype PatientKey = Id | Name | Age | Measurement(feature: Feature)

  const PatientKeys: seq<PatientKey> := [Id, Name, Age] + seq(|Features|, k requires 0 <= k < |Features| => Measurement(Features[k]))

  /** A record's keys come in declaration order: id, name, age, then the ten measurements in key order. */
  lemma PatientKeysOrder()
    ensures |PatientKeys| == 3 + |Features|
    ensures PatientKeys[0] == Id && PatientKeys[1] == Name && PatientKeys[2] == Age
    ensures forall k :: 0 <= k < |Features| ==> PatientKeys[k + 3] == Measurement(Features[k])
  {
  }

  datatype Label = Benign | Malignant

  /** One measurement's contribution to a prediction. */
  datatype FeatureImportance = FeatureImportance(feature: string, importance: Number, value: Number)

  datatype PredictionResult = PredictionResult(
    prediction: Label,
    probability: Number,
    confidence: Number,
    features: seq<FeatureImportance>)
}
