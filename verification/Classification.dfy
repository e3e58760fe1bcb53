/** Classification of an image before a draft is made: rust/src/assistant/classification.rs. */
module Classification {
  import opened Wrappers
  import opened Text
  import opened Projects
  import opened Turn

  const CLASSIFICATION_MAX_ATTEMPTS: nat := 3
  const MAX_CLASSIFICATION_NOTES: nat := 12
  const MAX_CLASSIFICATION_NOTE_CHARS: nat := 240
  const CLASSIFICATION_TOOL_NAME := "classify_project_type"

  datatype Confidence = High | Medium | Low

  /** The project type is absent when the model reported it as unknown. */
  datatype ImageClassification = ImageClassification(
    projectType: Option<ProjectType>,
    confidence: Confidence,
    evidence: seq<string>,
    ambiguities: seq<string>)
  {
    function ResolvedProjectType(): Option<ProjectType> {
      if confidence == Low then None else projectType
    }
  }

  datatype ClassificationOutcome = ClassificationOutcome(
    classification: ImageClassification,
    routedModel: Option<string>,
    modelRequests: nat)

  /** The classifier model, its clock and the decoding of its arguments. */
  datatype Classifier = Classifier(
    respond: nat -> Result<ModelResponse, ModelError>,
    expired: nat -> bool,
    decode: string -> Option<ImageClassification>)

  function NormalizedNotes(notes: seq<string>, required: bool): Option<seq<string>> {
    if (required && notes == []) || |notes| > MAX_CLASSIFICATION_NOTES
       || exists n | n in notes :: !IsAcceptableNote(n, MAX_CLASSIFICATION_NOTE_CHARS) then
      None
    else Some(seq(|notes|, i requires 0 <= i < |notes| => Trim(notes[i])))
  }

  /** parse_output; every failure is a malformed response. */
  function ParseOutput(classifier: Classifier, output: ModelOutput): Option<ImageClassification> {
    if !output.ToolCalls? || |output.calls| != 1 then None
    else
      var call := output.calls[0];
      if Trim(call.id) == [] || call.name != CLASSIFICATION_TOOL_NAME then None
      else
        var decoded := classifier.decode(call.argumentText);
        if decoded.None? then None
        else
          var c := decoded.value;
          var evidence, ambiguities := NormalizedNotes(c.evidence, true), NormalizedNotes(c.ambiguities, false);
          if evidence.None? || ambiguities.None? || (c.projectType.None? && c.confidence != Low) then None
          else Some(c.(evidence := evidence.value, ambiguities := ambiguities.value))
  }

  /** The reply to request k says nothing usable, so that another attempt may follow. */
  predicate IsMalformed(classifier: Classifier, k: nat) {
    match classifier.respond(k)
    case Err(e) => e == MalformedResponse
    case Ok(response) => ParseOutput(classifier, response.output).None?
  }

  /** An accepted classification decides a project type exactly when its confidence is not low. */
  lemma AcceptedTypeIsOpenOnlyWhenLow(classifier: Classifier, output: ModelOutput)
    requires ParseOutput(classifier, output).Some?
    ensures var c := ParseOutput(classifier, output).value;
            && (c.ResolvedProjectType().None? <==> c.confidence == Low)
            && (c.confidence != Low ==> c.ResolvedProjectType() == c.projectType)
            && 1 <= |c.evidence| <= MAX_CLASSIFICATION_NOTES
  {
  }

  /** At most three requests; another one is sent only after a malformed reply, and the result is what
      the last reply says. */
  method ClassifyProjectImage(classifier: Classifier) returns (r: Result<ClassificationOutcome, ModelError>, sent: nat)
    ensures sent <= CLASSIFICATION_MAX_ATTEMPTS
    ensures forall k: nat | k + 1 < sent :: IsMalformed(classifier, k)
    ensures r.Ok? ==>
              && 1 <= sent == r.value.modelRequests
              && var reply := classifier.respond(sent - 1);
              && reply.Ok? && ParseOutput(classifier, reply.value.output) == Some(r.value.classification)
              && r.value.routedModel == reply.value.routedModel
    ensures r.Err? ==>
              || (r.error == Timeout && sent < CLASSIFICATION_MAX_ATTEMPTS && classifier.expired(sent)
                  && forall k: nat | k < sent :: IsMalformed(classifier, k))
              || (1 <= sent && classifier.respond(sent - 1) == Err(r.error) && r.error != MalformedResponse)
              || (r.error == MalformedResponse && sent == CLASSIFICATION_MAX_ATTEMPTS
                && IsMalformed(classifier, sent - 1))
  {
    hide ParseOutput;
    sent := 0;
    for attempt := 1 to CLASSIFICATION_MAX_ATTEMPTS + 1
      invariant sent == attempt - 1
      invariant forall k: nat | k < sent :: IsMalformed(classifier, k)
    {
      if classifier.expired(sent) {
        return Err(Timeout), sent;
      }
      var reply := classifier.respond(sent);
      sent := sent + 1;
      if reply.Err? {
        if reply.error == MalformedResponse && attempt < CLASSIFICATION_MAX_ATTEMPTS {
          continue;
        }
        return Err(reply.error), sent;
      }
      var parsed := ParseOutput(classifier, reply.value.output);
      if parsed.Some? {
        return Ok(ClassificationOutcome(parsed.value, reply.value.routedModel, sent)), sent;
      }
      if attempt < CLASSIFICATION_MAX_ATTEMPTS {
        continue;
      }
      return Err(MalformedResponse), sent;
    }
    return Err(MalformedResponse), sent;
  }

  /** What is accepted is what the one call decodes to, with its notes trimmed, as long as it names the
      classification tool and has an identifier, gives evidence, and leaves the type open only at low
      confidence. */
  lemma AcceptedIsWhatWasDecoded(classifier: Classifier, output: ModelOutput)
    ensures var r := ParseOutput(classifier, output);
            && (r.Some? ==>
                  && output.ToolCalls? && |output.calls| == 1
                  && output.calls[0].name == "classify_project_type" && Trim(output.calls[0].id) != []
                  && classifier.decode(output.calls[0].argumentText).Some?
                  && var c := classifier.decode(output.calls[0].argumentText).value;
                  && r.value.projectType == c.projectType && r.value.confidence == c.confidence
                  && AreTrimmedNotes(r.value.evidence, c.evidence)
                  && AreTrimmedNotes(r.value.ambiguities, c.ambiguities))
            && (r.None? && output.ToolCalls? && |output.calls| == 1
                && output.calls[0].name == "classify_project_type" && Trim(output.calls[0].id) != []
                && classifier.decode(output.calls[0].argumentText).Some? ==>
                  var c := classifier.decode(output.calls[0].argumentText).value;
                  || c.evidence == []
                  || (c.projectType.None? && c.confidence != Low)
                  || !AreGoodNotes(c.evidence) || !AreGoodNotes(c.ambiguities))
  {
    hide Trim, NormalizedNotes, AreGoodNotes, AreTrimmedNotes;
    if output.ToolCalls? && |output.calls| == 1 && classifier.decode(output.calls[0].argumentText).Some? {
      var c := classifier.decode(output.calls[0].argumentText).value;
      NotesExactly(c.evidence, true);
      NotesExactly(c.ambiguities, false);
    }
  }

  predicate AreTrimmedNotes(notes: seq<string>, given: seq<string>) {
    |notes| == |given| && forall i | 0 <= i < |given| :: notes[i] == Trim(given[i])
  }

  /** At most 12 notes, each with 1 to 240 characters and no control character once trimmed. */
  predicate AreGoodNotes(notes: seq<string>) {
    |notes| <= 12 && forall n | n in notes :: 1 <= |Trim(n)| <= 240 && forall c | c in Trim(n) :: !IsControl(c)
  }

  lemma NotesExactly(notes: seq<string>, required: bool)
    ensures var r := NormalizedNotes(notes, required);
            && (r.Some? <==> (required ==> notes != []) && AreGoodNotes(notes))
            && (r.Some? ==> AreTrimmedNotes(r.value, notes))
  {
    hide Trim, IsControl;
  }
}
