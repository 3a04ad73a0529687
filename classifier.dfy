/** Department classification (`classify_complaint_llm`, app.py:24-56),
    without the network call.

    The hosted language model is an oracle: its reply is either a failure
    (the request raised, or the reply had no text) or the text it
    returned. `float(...)` is the parameter `parse`, a partial function
    from text to a confidence value: `None` is the `ValueError` it raises
    on text that is not a number. Confidence values are `real`s. */
module Classifier {
  import opened Options
  import opened Text

  /** The five departments, in the source's order (app.py:18). */
  const DEPARTMENTS: seq<string> :=
    ["Technical Support", "Billing", "Customer Service", "Shipping", "General Queries"]

  const DEFAULT_DEPARTMENT: string := "General Queries"

  /** What the chat-completion call produced. */
  datatype ServiceReply = ServiceFailure | Completion(content: string)

  datatype Classification = Classification(department: string, confidence: real)

  /** What every failure collapses to (app.py:56). */
  const FALLBACK: Classification := Classification(DEFAULT_DEPARTMENT, 0.0)

  /** The two recognised line prefixes. */
  datatype Label = DepartmentLabel | ConfidenceLabel

  /** A line that the loop acts on for `tag`. The `Confidence:` test is
      the `elif` branch, so it applies only to lines that are not
      `Department:` lines. */
  predicate IsLabelled(line: string, tag: Label)
  {
    match tag
    case DepartmentLabel => StartsWith(line, "Department:")
    case ConfidenceLabel => !StartsWith(line, "Department:") && StartsWith(line, "Confidence:")
  }

  /** `line.split(":", 1)[1].strip()`: the text after the first `:`,
      stripped. */
  function LabelValue(line: string, tag: Label): string
    requires IsLabelled(line, tag)
  {
    assert line[10] == ':';
    Strip(line[IndexOf(line, ':') + 1..])
  }

  /** The value is what follows the tag itself, stripped: neither tag
      holds a `:` before its last character. */
  lemma LabelValueAfterLabel(line: string, tag: Label)
    requires IsLabelled(line, tag)
    ensures LabelValue(line, tag) == Strip(line[11..])
  {
    assert line[10] == ':';
    assert forall i :: 0 <= i < 10 ==> line[..10][i] != ':';
    IndexOfIs(line, ':', 10);
  }

  /** The index of the last line labelled `tag`, if any. */
  function LastLabelled(lines: seq<string>, tag: Label): (r: Option<nat>)
    ensures r.Some? ==> r.value < |lines| && IsLabelled(lines[r.value], tag)
    ensures r.Some? ==> forall j :: r.value < j < |lines| ==> !IsLabelled(lines[j], tag)
    ensures r.None? ==> forall j :: 0 <= j < |lines| ==> !IsLabelled(lines[j], tag)
  {
    if lines == [] then None
    else if IsLabelled(lines[|lines| - 1], tag) then Some(|lines| - 1)
    else LastLabelled(lines[..|lines| - 1], tag)
  }

  /** Every `Confidence:` line carries text that `parse` accepts. */
  predicate ConfidencesParse(lines: seq<string>, parse: string -> Option<real>)
  {
    forall i :: 0 <= i < |lines| && IsLabelled(lines[i], ConfidenceLabel) ==>
      parse(LabelValue(lines[i], ConfidenceLabel)).Some?
  }

  datatype Parsed = Parsed(department: string, confidence: real)

  /** What the line loop of app.py:44-49 leaves behind, stated without the
      loop: `None` when some `Confidence:` line does not parse (the loop
      raises); otherwise the value of the LAST `Department:` line (or `""`
      when there is none) and the parsed value of the LAST `Confidence:`
      line (or `0.0`). */
  function ParseReply(lines: seq<string>, parse: string -> Option<real>): Option<Parsed>
  {
    if !ConfidencesParse(lines, parse) then None
    else
      var department :=
        match LastLabelled(lines, DepartmentLabel)
        case None => ""
        case Some(k) => LabelValue(lines[k], DepartmentLabel);
      var confidence :=
        match LastLabelled(lines, ConfidenceLabel)
        case None => 0.0
        case Some(k) => parse(LabelValue(lines[k], ConfidenceLabel)).value;
      Some(Parsed(department, confidence))
  }

  /** The lines of a reply: `content.strip().split("\n")`. */
  function ReplyLines(content: string): seq<string>
  {
    Split(Strip(content), '\n')
  }

  /** The loop of app.py:44-49, run over `response.split("\n")`. It
      overwrites `department` and `confidence` line by line and stops
      with `None` at the first `Confidence:` value `float` rejects. */
  method ScanReply(response: string, parse: string -> Option<real>) returns (r: Option<Parsed>)
    ensures r == ParseReply(Split(response, '\n'), parse)
  {
    var lines := Split(response, '\n');
    var department, confidence := "", 0.0;
    var i := 0;
    while i < |lines|
      invariant 0 <= i <= |lines|
      invariant ParseReply(lines[..i], parse) == Some(Parsed(department, confidence))
    {
      var line := lines[i];
      if IsLabelled(line, DepartmentLabel) {
        DepartmentLineStep(lines, i, parse);
        department := LabelValue(line, DepartmentLabel);
      } else if IsLabelled(line, ConfidenceLabel) {
        var value := parse(LabelValue(line, ConfidenceLabel));
        if value.None? {
          BadConfidenceFails(lines, i, parse);
          return None;
        }
        ConfidenceLineStep(lines, i, parse);
        confidence := value.value;
      } else {
        OtherLineStep(lines, i, parse);
      }
      i := i + 1;
    }
    assert lines[..i] == lines;
    r := Some(Parsed(department, confidence));
  }

  /** How one more line changes the parse: a `Department:` line replaces
      the department, a `Confidence:` line replaces the confidence or
      makes the parse fail, any other line changes nothing. */
  lemma ParseReplyStep(lines: seq<string>, i: nat, parse: string -> Option<real>)
    requires i < |lines| && ParseReply(lines[..i], parse).Some?
    ensures var before, line := ParseReply(lines[..i], parse).value, lines[i];
      ParseReply(lines[..i + 1], parse) ==
        if IsLabelled(line, DepartmentLabel) then
          Some(Parsed(LabelValue(line, DepartmentLabel), before.confidence))
        else if IsLabelled(line, ConfidenceLabel) then
          match parse(LabelValue(line, ConfidenceLabel))
          case None => None
          case Some(v) => Some(Parsed(before.department, v))
        else Some(before)
  {
    var prefix, more, line := lines[..i], lines[..i + 1], lines[i];
    assert more[..i] == prefix;
    assert more[i] == line;
    assert !(IsLabelled(line, DepartmentLabel) && IsLabelled(line, ConfidenceLabel));
    if !IsLabelled(line, ConfidenceLabel) || parse(LabelValue(line, ConfidenceLabel)).Some? {
      assert ConfidencesParse(more, parse) by {
        forall j | 0 <= j < |more| && IsLabelled(more[j], ConfidenceLabel)
          ensures parse(LabelValue(more[j], ConfidenceLabel)).Some?
        {
          if j < i { assert more[j] == prefix[j]; }
        }
      }
    }
  }

  lemma DepartmentLineStep(lines: seq<string>, i: nat, parse: string -> Option<real>)
    requires i < |lines| && ParseReply(lines[..i], parse).Some?
    requires IsLabelled(lines[i], DepartmentLabel)
    ensures ParseReply(lines[..i + 1], parse) ==
      Some(Parsed(LabelValue(lines[i], DepartmentLabel), ParseReply(lines[..i], parse).value.confidence))
  {
    ParseReplyStep(lines, i, parse);
  }

  lemma ConfidenceLineStep(lines: seq<string>, i: nat, parse: string -> Option<real>)
    requires i < |lines| && ParseReply(lines[..i], parse).Some?
    requires IsLabelled(lines[i], ConfidenceLabel)
    requires parse(LabelValue(lines[i], ConfidenceLabel)).Some?
    ensures ParseReply(lines[..i + 1], parse) ==
      Some(Parsed(ParseReply(lines[..i], parse).value.department,
                  parse(LabelValue(lines[i], ConfidenceLabel)).value))
  {
    ParseReplyStep(lines, i, parse);
  }

  lemma OtherLineStep(lines: seq<string>, i: nat, parse: string -> Option<real>)
    requires i < |lines| && ParseReply(lines[..i], parse).Some?
    requires !IsLabelled(lines[i], DepartmentLabel) && !IsLabelled(lines[i], ConfidenceLabel)
    ensures ParseReply(lines[..i + 1], parse) == ParseReply(lines[..i], parse)
  {
    ParseReplyStep(lines, i, parse);
  }

  /** A `Confidence:` line that `float` rejects makes the whole reply fail
      to parse, whatever lines come before or after it. */
  lemma BadConfidenceFails(lines: seq<string>, i: nat, parse: string -> Option<real>)
    requires i < |lines| && IsLabelled(lines[i], ConfidenceLabel)
    requires parse(LabelValue(lines[i], ConfidenceLabel)).None?
    ensures ParseReply(lines, parse).None?
  {
  }

  /** `classify_complaint_llm` (app.py:24-56): parse the reply, force an
      unknown department to "General Queries", and collapse every failure
      to `("General Queries", 0.0)`. */
  function Classify(reply: ServiceReply, parse: string -> Option<real>): (c: Classification)
    ensures c.department in DEPARTMENTS
    ensures reply.ServiceFailure? ==> c == FALLBACK
    ensures reply.Completion? && !ConfidencesParse(ReplyLines(reply.content), parse) ==>
      c == FALLBACK
  {
    match reply
    case ServiceFailure => FALLBACK
    case Completion(content) =>
      match ParseReply(ReplyLines(content), parse)
      case None => FALLBACK
      case Some(p) =>
        Classification(if p.department in DEPARTMENTS then p.department else DEFAULT_DEPARTMENT,
                       p.confidence)
  }

  /** `classify_complaint_llm` as the source runs it: strip the reply,
      scan its lines, then apply the department fallback. */
  method ClassifyComplaint(reply: ServiceReply, parse: string -> Option<real>) returns (c: Classification)
    ensures c == Classify(reply, parse)
  {
    if reply.ServiceFailure? {
      return FALLBACK;
    }
    var response := Strip(reply.content);
    var parsed := ScanReply(response, parse);
    if parsed.None? {
      return FALLBACK;
    }
    var department := parsed.value.department;
    if department !in DEPARTMENTS {
      department := DEFAULT_DEPARTMENT;
    }
    c := Classification(department, parsed.value.confidence);
  }

  /** A reply whose last `Department:` line names one of the five keeps
      it, and keeps the confidence of its last `Confidence:` line, when
      every confidence parses. */
  lemma ClassifyKeepsKnownDepartment(content: string, parse: string -> Option<real>, k: nat, j: nat)
    requires var lines := ReplyLines(content);
      && ConfidencesParse(lines, parse)
      && k < |lines| && IsLabelled(lines[k], DepartmentLabel)
      && (forall i :: k < i < |lines| ==> !IsLabelled(lines[i], DepartmentLabel))
      && LabelValue(lines[k], DepartmentLabel) in DEPARTMENTS
      && j < |lines| && IsLabelled(lines[j], ConfidenceLabel)
      && (forall i :: j < i < |lines| ==> !IsLabelled(lines[i], ConfidenceLabel))
    ensures var lines := ReplyLines(content);
      Classify(Completion(content), parse) ==
        Classification(LabelValue(lines[k], DepartmentLabel),
                       parse(LabelValue(lines[j], ConfidenceLabel)).value)
  {
    var lines := ReplyLines(content);
    LastLabelledIs(lines, DepartmentLabel, k);
    LastLabelledIs(lines, ConfidenceLabel, j);
  }

  lemma LastLabelledIs(lines: seq<string>, tag: Label, k: nat)
    requires k < |lines| && IsLabelled(lines[k], tag)
    requires forall i :: k < i < |lines| ==> !IsLabelled(lines[i], tag)
    ensures LastLabelled(lines, tag) == Some(k)
  {
  }

  /** A reply with neither a `Department:` nor a `Confidence:` line
      classifies as ("General Queries", 0.0). */
  lemma ClassifyUnlabelledReply(content: string, parse: string -> Option<real>)
    requires forall i :: 0 <= i < |ReplyLines(content)| ==>
      !StartsWith(ReplyLines(content)[i], "Department:")
      && !StartsWith(ReplyLines(content)[i], "Confidence:")
    ensures Classify(Completion(content), parse) == FALLBACK
  {
    var lines := ReplyLines(content);
    assert LastLabelled(lines, DepartmentLabel).None?;
    assert LastLabelled(lines, ConfidenceLabel).None?;
  }

  /** A department outside the five becomes "General Queries"; the parsed
      confidence is kept. */
  lemma ClassifyUnknownDepartment(content: string, parse: string -> Option<real>)
    requires ParseReply(ReplyLines(content), parse).Some?
    requires ParseReply(ReplyLines(content), parse).value.department !in DEPARTMENTS
    ensures Classify(Completion(content), parse) ==
      Classification(DEFAULT_DEPARTMENT, ParseReply(ReplyLines(content), parse).value.confidence)
  {
  }

  /** A stripped value with no line break in it. */
  predicate Trimmed(v: string)
  {
    v != [] && !IsSpace(v[0]) && !IsSpace(v[|v| - 1]) && '\n' !in v
  }

  /** `Department: v` is a department line whose value is `v`. */
  lemma DepartmentLineValue(v: string)
    requires Trimmed(v)
    ensures var line := "Department: " + v;
      IsLabelled(line, DepartmentLabel) && !IsLabelled(line, ConfidenceLabel)
      && LabelValue(line, DepartmentLabel) == v
  {
    var line := "Department: " + v;
    assert line[..11] == "Department:";
    LabelValueAfterLabel(line, DepartmentLabel);
    assert line[11..] == [' '] + v;
    StripSkipsLeadingSpace(' ', v);
    StripTrimmed(v);
  }

  /** `Confidence: v` is a confidence line whose value is `v`. */
  lemma ConfidenceLineValue(v: string)
    requires Trimmed(v)
    ensures var line := "Confidence: " + v;
      IsLabelled(line, ConfidenceLabel) && !IsLabelled(line, DepartmentLabel)
      && LabelValue(line, ConfidenceLabel) == v
  {
    var line := "Confidence: " + v;
    assert line[..11] == "Confidence:";
    assert line[0] == 'C';
    assert !StartsWith(line, "Department:") by { assert "Department:"[0] == 'D'; }
    LabelValueAfterLabel(line, ConfidenceLabel);
    assert line[11..] == [' '] + v;
    StripSkipsLeadingSpace(' ', v);
    StripTrimmed(v);
  }

  /** Two trimmed lines joined by a line break come back as those two
      lines. */
  lemma TwoReplyLines(first: string, second: string)
    requires Trimmed(first) && Trimmed(second)
    ensures ReplyLines(first + ['\n'] + second) == [first, second]
  {
    var content := first + ['\n'] + second;
    assert content[0] == first[0];
    assert content[|content| - 1] == second[|second| - 1];
    StripTrimmed(content);
    SplitAtFirst(first, '\n', second);
    assert Split(second, '\n') == [second];
  }

  /** The reply the prompt asks for, `Department: d` then
      `Confidence: v`, classifies as `d` with confidence `parse(v)` when
      `d` is one of the five. */
  lemma ClassifyWellFormedReply(d: string, v: string, parse: string -> Option<real>)
    requires Trimmed(d) && Trimmed(v)
    requires d in DEPARTMENTS && parse(v).Some?
    ensures Classify(Completion("Department: " + d + "\nConfidence: " + v), parse)
      == Classification(d, parse(v).value)
  {
    var first, second := "Department: " + d, "Confidence: " + v;
    LabelledLinesTrimmed(d, v);
    TwoReplyLines(first, second);
    DepartmentLineValue(d);
    ConfidenceLineValue(v);
    var content := first + ['\n'] + second;
    assert ConfidencesParse(ReplyLines(content), parse);
    ClassifyKeepsKnownDepartment(content, parse, 0, 1);
    ReplyText(d, v);
  }

  lemma ReplyText(d: string, v: string)
    ensures ("Department: " + d) + ['\n'] + ("Confidence: " + v) == "Department: " + d + "\nConfidence: " + v
  {
  }

  lemma LabelledLinesTrimmed(d: string, v: string)
    requires Trimmed(d) && Trimmed(v)
    ensures Trimmed("Department: " + d) && Trimmed("Confidence: " + v)
  {
    var first, second := "Department: " + d, "Confidence: " + v;
    assert first[0] == 'D' && first[|first| - 1] == d[|d| - 1];
    assert second[0] == 'C' && second[|second| - 1] == v[|v| - 1];
  }
}
