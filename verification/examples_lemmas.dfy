/** Worked examples: class names of the guidance table, one class name
    spelt with a capital "Healthy" to show the two health tests apart, and
    replies as the client receives them. */
module Examples {
  import opened Options
  import opened Text
  import opened Backend
  import ApiClient

  /** Text free of the first character of `pat`, then `pat`, then more: the
      text is kept, `pat` becomes `rep`, and replacement carries on. */
  lemma ReplaceStep(t: string, u: string, pat: string, rep: string)
    requires |pat| > 0 && pat[0] !in t
    ensures Replace(t + pat + u, pat, rep) == t + rep + Replace(u, pat, rep)
  {
    assert t + pat + u == t + (pat + u);
    ReplaceCopiesPrefix(t, pat + u, pat, rep);
    ReplaceAtFront(u, pat, rep);
  }

  /** Text free of the first character of `pat` is left alone. */
  lemma ReplaceUntouched(t: string, pat: string, rep: string)
    requires |pat| > 0 && pat[0] !in t
    ensures Replace(t, pat, rep) == t
  {
    assert t + [] == t;
    ReplaceCopiesPrefix(t, [], pat, rep);
  }

  /** Unfolds the two passes of `FormatLabel`. */
  lemma FormatPasses(c: string, dashed: string, f: string)
    requires Replace(c, "__", " - ") == dashed
    requires Replace(dashed, "_", " ") == f
    ensures FormatLabel(c) == f
  {
  }

  /** An underscore followed by a word without underscores survives the
      dash pass. */
  lemma LoneUnderscore(w: string)
    requires '_' !in w
    ensures Replace("_" + w, "__", " - ") == "_" + w
  {
    assert "_" + w == ['_'] + w;
    assert !IsPrefix("__", ['_'] + w) by {
      if |w| > 0 {
        assert (['_'] + w)[1] == w[0] != '_';
      }
    }
    ReplaceCopiesChar('_', w, "__", " - ");
    ReplaceUntouched(w, "__", " - ");
  }

  /** `a__b_c` with underscore-free words is shown as `a - b c`. */
  lemma FormatDoubleSingle(a: string, b: string, c: string)
    requires '_' !in a && '_' !in b && '_' !in c
    ensures FormatLabel(a + "__" + b + "_" + c) == a + " - " + b + " " + c
  {
    var s := a + "__" + b + "_" + c;
    var dashed := a + " - " + b + "_" + c;
    calc {
      Replace(s, "__", " - ");
      { assert s == a + "__" + (b + "_" + c); ReplaceStep(a, b + "_" + c, "__", " - "); }
      a + " - " + Replace(b + "_" + c, "__", " - ");
      { assert b + "_" + c == b + ("_" + c); ReplaceCopiesPrefix(b, "_" + c, "__", " - "); }
      a + " - " + (b + Replace("_" + c, "__", " - "));
      { LoneUnderscore(c); }
      a + " - " + (b + ("_" + c));
      dashed;
    }
    calc {
      Replace(dashed, "_", " ");
      { assert dashed == (a + " - " + b) + "_" + c; ReplaceStep(a + " - " + b, c, "_", " "); }
      a + " - " + b + " " + Replace(c, "_", " ");
      { ReplaceUntouched(c, "_", " "); }
      a + " - " + b + " " + c;
    }
    FormatPasses(s, dashed, a + " - " + b + " " + c);
  }

  /** `a__b___c` with underscore-free words is shown as
      `a - b -  c`: the run of three loses its first two underscores to the
      dash and its third to a space. */
  lemma FormatDoubleTriple(a: string, b: string, c: string)
    requires '_' !in a && '_' !in b && '_' !in c
    ensures FormatLabel(a + "__" + b + "___" + c) == a + " - " + b + " -  " + c
  {
    var s := a + "__" + b + "___" + c;
    var dashed := a + " - " + b + " - " + "_" + c;
    calc {
      Replace(s, "__", " - ");
      { assert s == a + "__" + (b + "__" + ("_" + c)); ReplaceStep(a, b + "__" + ("_" + c), "__", " - "); }
      a + " - " + Replace(b + "__" + ("_" + c), "__", " - ");
      { ReplaceStep(b, "_" + c, "__", " - "); }
      a + " - " + (b + " - " + Replace("_" + c, "__", " - "));
      { LoneUnderscore(c); }
      a + " - " + (b + " - " + ("_" + c));
      dashed;
    }
    calc {
      Replace(dashed, "_", " ");
      { assert dashed == (a + " - " + b + " - ") + "_" + c; ReplaceStep(a + " - " + b + " - ", c, "_", " "); }
      a + " - " + b + " - " + " " + Replace(c, "_", " ");
      { ReplaceUntouched(c, "_", " "); }
      a + " - " + b + " -  " + c;
    }
    FormatPasses(s, dashed, a + " - " + b + " -  " + c);
  }

  /** `a__b___c_d` with underscore-free words and `c` non-empty is shown as `a - b -  c d`. */
  lemma FormatDoubleTripleSingle(a: string, b: string, c: string, d: string)
    requires '_' !in a && '_' !in b && '_' !in c && '_' !in d && |c| > 0
    ensures FormatLabel(a + "__" + b + "___" + c + "_" + d) == a + " - " + b + " -  " + c + " " + d
  {
    var s := a + "__" + b + "___" + c + "_" + d;
    var tail := c + "_" + d;
    var dashed := a + " - " + b + " - " + "_" + tail;
    assert Replace(tail, "__", " - ") == tail by {
      assert tail == c + ("_" + d);
      ReplaceCopiesPrefix(c, "_" + d, "__", " - ");
      LoneUnderscore(d);
    }
    calc {
      Replace(s, "__", " - ");
      { assert s == a + "__" + (b + "__" + ("_" + tail)); ReplaceStep(a, b + "__" + ("_" + tail), "__", " - "); }
      a + " - " + Replace(b + "__" + ("_" + tail), "__", " - ");
      { ReplaceStep(b, "_" + tail, "__", " - "); }
      a + " - " + (b + " - " + Replace("_" + tail, "__", " - "));
      { assert "_" + tail == ['_'] + tail;
        assert (['_'] + tail)[1] == c[0];
        ReplaceCopiesChar('_', tail, "__", " - "); }
      a + " - " + (b + " - " + ("_" + Replace(tail, "__", " - ")));
      dashed;
    }
    var f := a + " - " + b + " -  " + c + " " + d;
    calc {
      Replace(dashed, "_", " ");
      { assert dashed == (a + " - " + b + " - ") + "_" + tail; ReplaceStep(a + " - " + b + " - ", tail, "_", " "); }
      a + " - " + b + " - " + " " + Replace(tail, "_", " ");
      { ReplaceStep(c, d, "_", " "); ReplaceUntouched(d, "_", " "); }
      a + " - " + b + " - " + " " + (c + " " + d);
      f;
    }
    FormatPasses(s, dashed, f);
  }

  /** `a_b` with underscore-free words is shown as `a b`. */
  lemma FormatSingle(a: string, b: string)
    requires '_' !in a && '_' !in b
    ensures FormatLabel(a + "_" + b) == a + " " + b
  {
    var s := a + "_" + b;
    calc {
      Replace(s, "__", " - ");
      { assert s == a + ("_" + b); ReplaceCopiesPrefix(a, "_" + b, "__", " - "); }
      a + Replace("_" + b, "__", " - ");
      { LoneUnderscore(b); }
      s;
    }
    ReplaceStep(a, b, "_", " ");
    ReplaceUntouched(b, "_", " ");
    FormatPasses(s, s, a + " " + b);
  }

  /** How the example class names split into words. */
  lemma TargetSpotSpelling()
    ensures "Tomato" + "__" + "Target" + "_" + "Spot" == "Tomato__Target_Spot"
    ensures "Tomato" + " - " + "Target" + " " + "Spot" == "Tomato - Target Spot"
  {
  }

  lemma PepperSpotSpelling()
    ensures "Pepper" + "__" + "bell" + "___" + "Bacterial" + "_" + "spot" == "Pepper__bell___Bacterial_spot"
    ensures "Pepper" + " - " + "bell" + " -  " + "Bacterial" + " " + "spot" == "Pepper - bell -  Bacterial spot"
  {
  }

  lemma HealthyPepperSpelling()
    ensures "Pepper" + "__" + "bell" + "___" + "healthy" == "Pepper__bell___healthy"
    ensures "Pepper" + " - " + "bell" + " -  " + "healthy" == "Pepper - bell -  healthy"
  {
  }

  lemma CapitalHealthySpelling()
    ensures "Tomato" + "_" + "Healthy" == "Tomato_Healthy"
    ensures "Tomato" + " " + "Healthy" == "Tomato Healthy"
  {
  }

  lemma FormatTargetSpot(c: string)
    requires c == "Tomato__Target_Spot"
    ensures FormatLabel(c) == "Tomato - Target Spot"
  {
    FormatDoubleSingle("Tomato", "Target", "Spot");
    TargetSpotSpelling();
  }

  lemma FormatPepperBacterialSpot(c: string)
    requires c == "Pepper__bell___Bacterial_spot"
    ensures FormatLabel(c) == "Pepper - bell -  Bacterial spot"
  {
    FormatDoubleTripleSingle("Pepper", "bell", "Bacterial", "spot");
    PepperSpotSpelling();
  }

  /** The record for `Tomato__Target_Spot` shows its formatted label. */
  lemma TargetSpotRecord(simpleLabels: map<string, Guidance>, confidence: real)
    ensures BuildPrediction(simpleLabels, "Tomato__Target_Spot", confidence).diseaseName == "Tomato - Target Spot"
  {
    FormatTargetSpot("Tomato__Target_Spot");
    var f := "Tomato - Target Spot";
    assert f[|f| - 7..] != HealthyWord;
  }

  /** A class ending in "healthy" is displayed as "Healthy Plant" and flagged
      healthy. */
  lemma HealthyPepper(c: string)
    requires c == "Pepper__bell___healthy"
    ensures DiseaseName(c) == HealthyName
    ensures IsHealthy(c)
  {
    FormatDoubleTriple("Pepper", "bell", "healthy");
    HealthyPepperSpelling();
    var f := "Pepper - bell -  healthy";
    assert FormatLabel(c) == f;
    assert f[|f| - 7..] == HealthyWord;
    HealthyNameImpliesHealthyFlag(c);
  }

  /** The health flag ignores letter case but the display name does not: a
      class ending in "Healthy" is flagged healthy yet keeps its own name. */
  lemma CapitalHealthyKeepsItsName(c: string)
    requires c == "Tomato_Healthy"
    ensures IsHealthy(c)
    ensures DiseaseName(c) == "Tomato Healthy"
  {
    FormatSingle("Tomato", "Healthy");
    CapitalHealthySpelling();
    var f := "Tomato Healthy";
    assert FormatLabel(c) == f;
    assert f[|f| - 7] == 'H';
    assert Lower(c)[7..14] == HealthyWord;
    assert OccursAt(Lower(c), HealthyWord, 7);
  }

  /** The client sends the image under the part name the server reads. */
  lemma ClientSendsTheServersPart(baseUrl: string, imageUri: string)
    ensures ApiClient.PredictRequest(baseUrl, imageUri).image.value.field == ImagePart
  {
  }

  /** With two classes sharing an index, the one listed last wins. */
  lemma SharedIndexKeepsLastClass()
    ensures InvertClassIndices([("Tomato_healthy", 3), ("Potato___healthy", 3)])[3] == "Potato___healthy"
  {
    var items := [("Tomato_healthy", 3), ("Potato___healthy", 3)];
    InvertKeepsLastClass(items, 1);
  }

  /** An index the table lacks is reported with the index itself. */
  lemma UnknownIndexReply(classify: Upload -> Inference, files: map<string, Upload>)
    requires ImagePart in files && classify(files[ImagePart]) == Classified(38, 0.5)
    ensures Predict(Start([("Tomato_healthy", 0)], map[]), Form(files), classify)
            == Reply(500, ErrorBody("Image processing error: 38"))
  {
    assert Decimal.Show(3) == "3";
    assert Decimal.Show(38) == "38";
  }

  /** A 500 reply reaches the client as an error naming status and body,
      whatever the body holds. */
  lemma ServerErrorSeenByClient<J>(text: string, json: ApiClient.JsonParse<J>)
    ensures ApiClient.PredictResponse(ApiClient.Responded(500, ApiClient.ResponseBody(text, json)))
            == ApiClient.ApiResponse(false, None, Some("HTTP 500: " + text))
  {
    assert Decimal.Show(5) == "5";
    assert Decimal.Show(50) == "50";
    assert Decimal.Show(500) == "500";
    assert "HTTP " + "500" + ": " + text == "HTTP 500: " + text;
  }
}
