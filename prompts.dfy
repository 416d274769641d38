/** The summary prompt template and Python's `str.format` over it. The
    template is held already split into its literal text and its named
    replacement fields; the substituted values are inserted verbatim. */
module Prompts {
  import opened Text

  /** The replacement fields of the summary prompt. */
  datatype SummaryField = PatientName | Age | DateOfBirth | NotesText

  /** The keyword arguments `_build_prompt` passes to `format`, one per
      field. */
  datatype SummaryArgs = SummaryArgs(name: string, age: string, dateOfBirth: string, notesText: string)
  {
    function Value(f: SummaryField): string {
      match f
      case PatientName => name
      case Age => age
      case DateOfBirth => dateOfBirth
      case NotesText => notesText
    }
  }

  /** A piece of a format template: literal text, or a replacement field. */
  datatype Segment = Literal(text: string) | Placeholder(key: SummaryField)

  /** The text one segment contributes. */
  function SegmentText(s: Segment, args: SummaryArgs): string
  {
    match s
    case Literal(t) => t
    case Placeholder(k) => args.Value(k)
  }

  /** `template.format(**args)`: the literal text, with each field replaced
      by its value. All four fields always have a value. */
  function Format(template: seq<Segment>, args: SummaryArgs): string
  {
    FormatFrom(template, args, 0)
  }

  /** The formatted text of the segments from position `k` on. */
  function FormatFrom(template: seq<Segment>, args: SummaryArgs, k: nat): string
    decreases |template| - k
  {
    if k >= |template| then "" else SegmentText(template[k], args) + FormatFrom(template, args, k + 1)
  }

  /** The value of every field occurs verbatim in the formatted text. */
  lemma {:induction false} FormatFromContainsValue(template: seq<Segment>, args: SummaryArgs, k: nat, i: nat)
    requires k <= i < |template| && template[i].Placeholder?
    ensures IsInfix(args.Value(template[i].key), FormatFrom(template, args, k))
    decreases i - k
  {
    var f := FormatFrom(template, args, k);
    var v := args.Value(template[i].key);
    var head := SegmentText(template[k], args);
    var rest := FormatFrom(template, args, k + 1);
    assert f == head + rest;
    if i == k {
      assert f[0..] == f;
      assert IsPrefix(v, f[0..]);
    } else {
      FormatFromContainsValue(template, args, k + 1, i);
      var j :| 0 <= j <= |rest| && IsPrefix(v, rest[j..]);
      assert f[|head| + j..] == rest[j..];
      assert IsPrefix(v, f[|head| + j..]);
    }
  }

  const Opening: string :=
    "\n        Generate a concise medical summary for the following patient:\n\n"
    + "        Patient Information:\n        - Name: "
  const AfterName: string := "\n        - Age: "
  const AfterAge: string := " years old\n        - Date of Birth: "
  const AfterDateOfBirth: string := "\n\n        Medical Notes:\n        "
  const Closing: string :=
    "\n\n        Please provide a structured summary that includes:\n"
    + "        1. Key diagnoses and conditions mentioned\n"
    + "        2. Current medications or treatments\n"
    + "        3. Recent observations and vital signs\n"
    + "        4. Any concerning symptoms or changes\n"
    + "        5. Recommended follow-up actions\n\n"
    + "        Keep the summary professional, concise, and focused on clinically relevant information.\n"
    + "        Format the response in clear paragraphs without using markdown headers.\n"

  /** A template of the summary prompt's shape: five literal pieces around
      the four fields. */
  function SummaryShape(opening: string, afterName: string, afterAge: string,
                        afterDateOfBirth: string, closing: string): seq<Segment>
  {
    [ Literal(opening), Placeholder(PatientName),
      Literal(afterName), Placeholder(Age),
      Literal(afterAge), Placeholder(DateOfBirth),
      Literal(afterDateOfBirth), Placeholder(NotesText),
      Literal(closing) ]
  }

  /** `PATIENT_NOTES_SUMMARY_PROMPT`. */
  const SummaryTemplate: seq<Segment> :=
    SummaryShape(Opening, AfterName, AfterAge, AfterDateOfBirth, Closing)

  /** The summary prompt for the given values. */
  function SummaryPrompt(name: string, age: string, dateOfBirth: string, notesText: string): string
  {
    Format(SummaryTemplate, SummaryArgs(name, age, dateOfBirth, notesText))
  }

  /** The second half of a template of the prompt's shape. */
  lemma ShapeTail(o: string, an: string, aa: string, ad: string, c: string, args: SummaryArgs)
    ensures FormatFrom(SummaryShape(o, an, aa, ad, c), args, 5)
      == args.dateOfBirth + (ad + (args.notesText + c))
  {
    var t := SummaryShape(o, an, aa, ad, c);
    assert FormatFrom(t, args, 9) == "";
    assert FormatFrom(t, args, 8) == c + "";
    assert c + "" == c;
    assert FormatFrom(t, args, 7) == args.notesText + c;
    assert FormatFrom(t, args, 6) == ad + (args.notesText + c);
  }

  /** Formatting a template of the prompt's shape puts each value between
      its literal pieces. */
  lemma ShapeText(o: string, an: string, aa: string, ad: string, c: string, args: SummaryArgs)
    ensures Format(SummaryShape(o, an, aa, ad, c), args)
      == o + (args.name + (an + (args.age + (aa + (args.dateOfBirth + (ad + (args.notesText + c)))))))
  {
    var t := SummaryShape(o, an, aa, ad, c);
    var tail := args.dateOfBirth + (ad + (args.notesText + c));
    ShapeTail(o, an, aa, ad, c, args);
    assert FormatFrom(t, args, 4) == aa + tail;
    assert FormatFrom(t, args, 3) == args.age + (aa + tail);
    assert FormatFrom(t, args, 2) == an + (args.age + (aa + tail));
    assert FormatFrom(t, args, 1) == args.name + (an + (args.age + (aa + tail)));
  }

  /** The prompt is the template text with the four values in their
      places. */
  lemma SummaryPromptText(name: string, age: string, dateOfBirth: string, notesText: string)
    ensures SummaryPrompt(name, age, dateOfBirth, notesText)
      == Opening + (name + (AfterName + (age + (AfterAge + (dateOfBirth
         + (AfterDateOfBirth + (notesText + Closing)))))))
  {
    ShapeText(Opening, AfterName, AfterAge, AfterDateOfBirth, Closing, SummaryArgs(name, age, dateOfBirth, notesText));
  }

  /** Each of the four values occurs verbatim in the prompt. */
  lemma SummaryPromptContains(name: string, age: string, dateOfBirth: string, notesText: string)
    ensures IsInfix(name, SummaryPrompt(name, age, dateOfBirth, notesText))
    ensures IsInfix(age, SummaryPrompt(name, age, dateOfBirth, notesText))
    ensures IsInfix(dateOfBirth, SummaryPrompt(name, age, dateOfBirth, notesText))
    ensures IsInfix(notesText, SummaryPrompt(name, age, dateOfBirth, notesText))
  {
    var args := SummaryArgs(name, age, dateOfBirth, notesText);
    FormatFromContainsValue(SummaryTemplate, args, 0, 1);
    FormatFromContainsValue(SummaryTemplate, args, 0, 3);
    FormatFromContainsValue(SummaryTemplate, args, 0, 5);
    FormatFromContainsValue(SummaryTemplate, args, 0, 7);
  }
}
