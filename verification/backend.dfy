/** The prediction server (`backend/app.py`): everything the `/predict`
    handler does once the classifier has picked a class index, plus the
    start-up inversion of the class-index table. The classifier itself is a
    parameter. */
module Backend {
  import opened Options
  import opened Text
  import Decimal

  /** One row of the guidance table: a dictionary from field name
      (`"name"`, `"advice"`, ...) to text. */
  type Guidance = map<string, string>

  /** What the server holds after start-up: the index-to-class table and the
      class-to-guidance table. */
  datatype Server = Server(labels: map<int, string>, simpleLabels: map<string, Guidance>)

  /** The ten-field record returned on success. `confidence` is the
      classifier's score, passed through untouched. */
  datatype Prediction = Prediction(
    diseaseName: string,
    className: string,
    simpleName: string,
    advice: string,
    symptoms: string,
    causes: string,
    prevention: string,
    treatment: string,
    confidence: real,
    isHealthy: bool)

  datatype Body = PredictionBody(prediction: Prediction) | ErrorBody(error: string)

  /** An HTTP reply: status code and JSON body. */
  datatype Reply = Reply(status: nat, body: Body)

  /** One uploaded file part. */
  datatype Upload = Upload(filename: string, content: seq<bv8>)

  /** The request as the framework hands it over: its file parts by name, or
      the reason reading them failed. */
  datatype Incoming = Form(files: map<string, Upload>) | Unreadable(reason: string)

  /** What decoding, resizing and classifying an image yields: the winning
      class index and its score, or the message of the exception raised. */
  datatype Inference = Classified(classIdx: nat, confidence: real) | ProcessingFailed(reason: string)

  const ImagePart := "image"
  const NoImageMessage := "No image uploaded"
  const ProcessingErrorPrefix := "Image processing error: "
  const HealthyWord := "healthy"
  const HealthyName := "Healthy Plant"

  // ---------------------------------------------------------------------
  // Start-up: inverting the class-index table

  /** Index `j` is the last entry of `items` with its index. */
  ghost predicate LastWithIndex(items: seq<(string, int)>, j: int)
    requires 0 <= j < |items|
  {
    forall k :: j < k < |items| ==> items[k].1 != items[j].1
  }

  /** `{v: k for k, v in class_indices.items()}`: entries are visited in file
      order and a later class with the same index overwrites an earlier one. */
  function InvertClassIndices(items: seq<(string, int)>): (labels: map<int, string>)
    ensures labels.Keys == set e | e in items :: e.1
    decreases |items|
  {
    if |items| == 0 then map[]
    else
      var prefix := items[..|items| - 1];
      var last := items[|items| - 1];
      assert items == prefix + [last];
      InvertClassIndices(prefix)[last.1 := last.0]
  }

  /** The class an index is sent to is the last class listed with that
      index. */
  lemma {:induction false} InvertKeepsLastClass(items: seq<(string, int)>, j: int)
    requires 0 <= j < |items| && LastWithIndex(items, j)
    ensures InvertClassIndices(items)[items[j].1] == items[j].0
    decreases |items|
  {
    var prefix := items[..|items| - 1];
    if j < |items| - 1 {
      assert prefix[j] == items[j];
      assert LastWithIndex(prefix, j) by {
        forall k | j < k < |prefix| ensures prefix[k].1 != prefix[j].1 {
          assert prefix[k] == items[k];
        }
      }
      InvertKeepsLastClass(prefix, j);
    }
  }

  /** Every entry of the inverted table comes from an entry of the file. */
  lemma {:induction false} InvertedEntriesAreListed(items: seq<(string, int)>, v: int)
    requires v in InvertClassIndices(items)
    ensures (InvertClassIndices(items)[v], v) in items
    decreases |items|
  {
    var prefix := items[..|items| - 1];
    var last := items[|items| - 1];
    assert items == prefix + [last];
    if v != last.1 {
      InvertedEntriesAreListed(prefix, v);
    }
  }

  /** Every index is distinct. */
  ghost predicate DistinctIndices(items: seq<(string, int)>) {
    forall j, k :: 0 <= j < k < |items| ==> items[j].1 != items[k].1
  }

  /** With distinct indices the inverted table sends each class's index back
      to that class. */
  lemma LabelsInvertClassIndices(items: seq<(string, int)>)
    requires DistinctIndices(items)
    ensures forall j :: 0 <= j < |items| ==> InvertClassIndices(items)[items[j].1] == items[j].0
  {
    forall j | 0 <= j < |items|
      ensures InvertClassIndices(items)[items[j].1] == items[j].0
    {
      assert LastWithIndex(items, j);
      InvertKeepsLastClass(items, j);
    }
  }

  /** The server state after start-up. */
  function Start(classIndices: seq<(string, int)>, simpleLabels: map<string, Guidance>): (s: Server)
    ensures s.simpleLabels == simpleLabels
    ensures s.labels.Keys == set e | e in classIndices :: e.1
  {
    Server(InvertClassIndices(classIndices), simpleLabels)
  }

  // ---------------------------------------------------------------------
  // From class name to response record

  /** `class_name.replace('__', ' - ').replace('_', ' ')`. */
  function FormatLabel(className: string): (f: string)
    ensures '_' !in f
    ensures |f| >= |className|
  {
    var dashed := Replace(className, "__", " - ");
    ReplaceRemovesChar(dashed, '_', " ");
    Replace(dashed, "_", " ")
  }

  /** Formatting only inserts spaces and dashes: any stretch of the formatted
      label free of both was already in the class name. */
  lemma FormatLabelKeepsWords(className: string, w: string, i: int)
    requires Disjoint(w, " -")
    requires OccursAt(FormatLabel(className), w, i)
    ensures Occurs(className, w)
  {
    var dashed := Replace(className, "__", " - ");
    assert Disjoint(w, " ");
    ReplaceKeepsInfix(dashed, "_", " ", w, i);
    var k :| OccursAt(dashed, w, k);
    assert Disjoint(w, " - ");
    ReplaceKeepsInfix(className, "__", " - ", w, k);
  }

  /** Python's `'healthy' in class_name.lower()`. */
  function IsHealthy(className: string): (b: bool)
    ensures b <==> Occurs(Lower(className), HealthyWord)
  {
    Contains(Lower(className), HealthyWord)
  }

  /** The displayed disease name: "Healthy Plant" when the formatted label
      ends with "healthy", and the formatted label otherwise. Either way the
      name shown never ends with "healthy". */
  function DiseaseName(className: string): (d: string)
    ensures d == HealthyName || d == FormatLabel(className)
    ensures !EndsWith(FormatLabel(className), HealthyWord) ==> d == FormatLabel(className)
    ensures !EndsWith(d, HealthyWord)
    ensures '_' !in d
  {
    var f := FormatLabel(className);
    assert HealthyName[|HealthyName| - |HealthyWord|..] != HealthyWord;
    if EndsWith(f, HealthyWord) then HealthyName else f
  }

  /** A word free of spaces and dashes in the formatted label shows up,
      lowercased, in the lowercased class name. */
  lemma FormattedWordInLowerClass(className: string, w: string, i: int)
    requires Disjoint(w, " -")
    requires OccursAt(FormatLabel(className), w, i)
    ensures Occurs(Lower(className), Lower(w))
  {
    FormatLabelKeepsWords(className, w, i);
    var k :| OccursAt(className, w, k);
    LowerKeepsOccurrence(className, w, k);
  }

  /** A formatted label that ends with "healthy" or reads "Healthy Plant"
      comes from a class name containing "healthy" in some letter case. */
  lemma HealthyLabelImpliesHealthyFlag(className: string)
    requires EndsWith(FormatLabel(className), HealthyWord) || FormatLabel(className) == HealthyName
    ensures IsHealthy(className)
  {
    var f := FormatLabel(className);
    HealthySpellings();
    if EndsWith(f, HealthyWord) {
      assert OccursAt(f, HealthyWord, |f| - |HealthyWord|);
      FormattedWordInLowerClass(className, HealthyWord, |f| - |HealthyWord|);
    } else {
      assert f[..7] == "Healthy";
      assert OccursAt(f, "Healthy", 0);
      FormattedWordInLowerClass(className, "Healthy", 0);
    }
  }

  /** Both spellings of the word lowercase to "healthy" and hold neither a
      space nor a dash. */
  lemma HealthySpellings()
    ensures Lower(HealthyWord) == HealthyWord && Lower("Healthy") == HealthyWord
    ensures Disjoint(HealthyWord, " -") && Disjoint("Healthy", " -")
  {
  }

  /** Whenever the displayed name is "Healthy Plant", the class name contains
      "healthy" in some letter case, so the health flag is set. */
  lemma HealthyNameImpliesHealthyFlag(className: string)
    ensures DiseaseName(className) == HealthyName ==> IsHealthy(className)
  {
    if DiseaseName(className) == HealthyName {
      HealthyLabelImpliesHealthyFlag(className);
    }
  }

  /** `simple.get(field, "")`: the entry's text, or "" when it has none. */
  function Field(g: Guidance, field: string): (v: string)
    ensures field in g ==> v == g[field]
    ensures field !in g ==> v == ""
  {
    if field in g then g[field] else ""
  }

  /** `simple_labels.get(class_name, {"name": class_name, "advice": ""})`:
      the class's own entry, or one whose name is the class name and whose
      every other field reads as empty. */
  function GuidanceFor(simpleLabels: map<string, Guidance>, className: string): (g: Guidance)
    ensures className in simpleLabels ==> g == simpleLabels[className]
    ensures className !in simpleLabels ==>
              forall field :: Field(g, field) == (if field == "name" then className else "")
  {
    if className in simpleLabels then simpleLabels[className]
    else map["name" := className, "advice" := ""]
  }

  /** The response record for a recognised class. */
  function BuildPrediction(simpleLabels: map<string, Guidance>, className: string, confidence: real): (p: Prediction)
    ensures p.className == className && p.confidence == confidence
    ensures p.diseaseName == DiseaseName(className)
    ensures '_' !in p.diseaseName
    ensures p.isHealthy <==> Occurs(Lower(className), HealthyWord)
    ensures p.diseaseName == HealthyName ==> p.isHealthy
    ensures className in simpleLabels ==>
              var g := simpleLabels[className];
              && p.simpleName == Field(g, "name")
              && p.advice == Field(g, "advice")
              && p.symptoms == Field(g, "symptoms")
              && p.causes == Field(g, "causes")
              && p.prevention == Field(g, "prevention")
              && p.treatment == Field(g, "treatment")
    ensures className !in simpleLabels ==>
              && p.simpleName == className
              && p.advice == "" && p.symptoms == "" && p.causes == ""
              && p.prevention == "" && p.treatment == ""
  {
    var g := GuidanceFor(simpleLabels, className);
    HealthyNameImpliesHealthyFlag(className);
    Prediction(
      DiseaseName(className), className,
      Field(g, "name"), Field(g, "advice"), Field(g, "symptoms"),
      Field(g, "causes"), Field(g, "prevention"), Field(g, "treatment"),
      confidence, IsHealthy(className))
  }

  // ---------------------------------------------------------------------
  // The `/predict` handler

  /** `POST /predict`. `classify` stands for opening, resizing and
      normalising the image and running the classifier on it. */
  function Predict(server: Server, request: Incoming, classify: Upload -> Inference): (r: Reply)
    ensures r.status == 200 || r.status == 400 || r.status == 500
    ensures r.status == 200 <==> r.body.PredictionBody?
    ensures request.Unreadable? ==> r == Reply(500, ErrorBody(request.reason))
    ensures r.status == 400 <==> request.Form? && ImagePart !in request.files
    ensures r.status == 400 ==> r.body == ErrorBody(NoImageMessage)
    ensures request.Form? && ImagePart in request.files ==>
              match classify(request.files[ImagePart])
              case ProcessingFailed(reason) =>
                r == Reply(500, ErrorBody(ProcessingErrorPrefix + reason))
              case Classified(idx, confidence) =>
                if idx in server.labels then
                  r.status == 200 && r.body.prediction.className == server.labels[idx]
                  && r.body.prediction.confidence == confidence
                  && r.body == PredictionBody(BuildPrediction(server.simpleLabels, server.labels[idx], confidence))
                else
                  r == Reply(500, ErrorBody(ProcessingErrorPrefix + Decimal.Show(idx)))
  {
    match request
    case Unreadable(reason) => Reply(500, ErrorBody(reason))
    case Form(files) =>
      if ImagePart !in files then Reply(400, ErrorBody(NoImageMessage))
      else
        match classify(files[ImagePart])
        case ProcessingFailed(reason) => Reply(500, ErrorBody(ProcessingErrorPrefix + reason))
        case Classified(idx, confidence) =>
          if idx !in server.labels then
            // `labels[class_idx]` raises KeyError, whose text is the index
            Reply(500, ErrorBody(ProcessingErrorPrefix + Decimal.Show(idx)))
          else
            Reply(200, PredictionBody(BuildPrediction(server.simpleLabels, server.labels[idx], confidence)))
  }

  /** A request without an `image` part is answered without looking at the
      classifier at all. */
  lemma MissingImageSkipsClassifier(server: Server, files: map<string, Upload>, f: Upload -> Inference, g: Upload -> Inference)
    requires ImagePart !in files
    ensures Predict(server, Form(files), f) == Predict(server, Form(files), g)
  {
  }

  /** End to end: with distinct indices in the class-index file, a classifier
      answering index `items[j].1` yields a successful reply naming class
      `items[j].0`. */
  lemma PredictNamesIndexedClass(items: seq<(string, int)>, simpleLabels: map<string, Guidance>,
                                 files: map<string, Upload>, classify: Upload -> Inference, j: int)
    requires DistinctIndices(items)
    requires 0 <= j < |items| && ImagePart in files
    requires classify(files[ImagePart]).Classified?
    requires classify(files[ImagePart]).classIdx == items[j].1
    ensures var r := Predict(Start(items, simpleLabels), Form(files), classify);
            r.status == 200 && r.body.prediction.className == items[j].0
  {
    LabelsInvertClassIndices(items);
  }
}
