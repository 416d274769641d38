/** The LLM service: choosing the provider from the settings, the
    year-only age, the notes text and prompt assembly, and one summary
    request with its failure wrapping. The provider itself is an oracle that
    answers a prompt with a summary or a failure. */
module Llm {
  import opened Wrappers
  import opened Text
  import opened Prompts
  import PatientSchemas

  // ---------------------------------------------------------------------
  // Provider selection

  /** The settings `_get_provider` and the OpenAI provider read. */
  datatype LlmSettings = LlmSettings(llmProvider: string, openaiApiKey: Option<string>)

  /** The providers of the backend mapping. */
  datatype ProviderKind = OpenAIProvider

  const UnknownProviderPrefix: string := "Unknown LLM provider: "
  const MissingKeyMessage: string := "OPENAI_API_KEY not configured"

  /** `_get_provider`: looks the name up in the backend mapping and builds
      the provider, whose constructor refuses a missing or empty API key. */
  function SelectProvider(settings: LlmSettings): Result<ProviderKind, string>
  {
    if settings.llmProvider == "openai" then
      if settings.openaiApiKey == None || settings.openaiApiKey == Some("") then Err(MissingKeyMessage)
      else Ok(OpenAIProvider)
    else Err(UnknownProviderPrefix + settings.llmProvider)
  }

  /** "openai" with a key selects the OpenAI provider; every other name
      fails naming itself; "openai" without a key fails on the key. */
  lemma ProviderSelection(settings: LlmSettings)
    ensures SelectProvider(settings) == Ok(OpenAIProvider) <==>
      settings.llmProvider == "openai" && settings.openaiApiKey.Some? && settings.openaiApiKey.value != ""
    ensures settings.llmProvider != "openai" ==>
      SelectProvider(settings) == Err(UnknownProviderPrefix + settings.llmProvider)
    ensures settings.llmProvider == "openai" && SelectProvider(settings).Err? ==>
      SelectProvider(settings).error == MissingKeyMessage
  {
  }

  // ---------------------------------------------------------------------
  // datetime.strptime(value, "%Y-%m-%d") and the age

  datatype Date = Date(year: int, month: int, day: int)

  predicate IsLeapYear(y: int) {
    y % 4 == 0 && (y % 100 != 0 || y % 400 == 0)
  }

  function DaysInMonth(y: int, m: int): int
    requires 1 <= m <= 12
  {
    if m == 2 then (if IsLeapYear(y) then 29 else 28)
    else if m == 4 || m == 6 || m == 9 || m == 11 then 30
    else 31
  }

  predicate NonZeroDigit(c: char) { '1' <= c <= '9' }

  /** The texts the `%m` directive matches: `1[0-2]|0[1-9]|[1-9]`. */
  predicate MonthText(s: string) {
    (|s| == 1 && NonZeroDigit(s[0]))
    || (|s| == 2 && s[0] == '0' && NonZeroDigit(s[1]))
    || (|s| == 2 && s[0] == '1' && '0' <= s[1] <= '2')
  }

  /** The texts the `%d` directive matches:
      `3[01]|[12]\d|0[1-9]|[1-9]| [1-9]`. */
  predicate DayText(s: string) {
    (|s| == 2 && s[0] == '3' && (s[1] == '0' || s[1] == '1'))
    || (|s| == 2 && (s[0] == '1' || s[0] == '2') && IsDigit(s[1]))
    || (|s| == 2 && s[0] == '0' && NonZeroDigit(s[1]))
    || (|s| == 1 && NonZeroDigit(s[0]))
    || (|s| == 2 && s[0] == ' ' && NonZeroDigit(s[1]))
  }

  /** `int()` of a matched day text (which ignores a leading space). */
  function DayValue(s: string): nat
    requires DayText(s)
  {
    if s[0] == ' ' then DigitsValue(s[1..]) else DigitsValue(s)
  }

  /** A year, month and day that `datetime` accepts. */
  predicate ValidDate(d: Date) {
    1 <= d.year <= 9999 && 1 <= d.month <= 12 && 1 <= d.day <= DaysInMonth(d.year, d.month)
  }

  /** `datetime.strptime(s, "%Y-%m-%d")`: four digits, a dash, a month, a
      dash, a day, nothing left over, and a real calendar date; `None`
      where it raises. The month text ends at the first dash after the
      year, because no month text contains one. */
  function ParseDate(s: string): Option<Date>
  {
    if |s| < 5 || !AllDigits(s[..4]) || s[4] != '-' then None
    else
      var r := s[5..];
      var j := if |r| >= 2 && r[1] == '-' then 1 else 2;
      if |r| <= j || r[j] != '-' || !MonthText(r[..j]) || !DayText(r[j + 1..]) then None
      else
        var d := Date(DigitsValue(s[..4]), DigitsValue(r[..j]), DayValue(r[j + 1..]));
        if ValidDate(d) then Some(d) else None
  }

  /** `_calculate_age`: the current year minus the birth year, ignoring
      month and day, or 0 for a value `strptime` rejects. */
  function CalculateAge(dateOfBirth: string, currentYear: int): int
  {
    match ParseDate(dateOfBirth)
    case Some(d) => currentYear - d.year
    case None => 0
  }

  /** What `strptime` returns is a real date whose year is the first four
      characters. */
  lemma ParseDateSound(s: string)
    requires ParseDate(s).Some?
    ensures ValidDate(ParseDate(s).value)
    ensures AllDigits(s[..4]) && ParseDate(s).value.year == DigitsValue(s[..4])
  {
  }

  /** A two-digit month text is accepted exactly for 01 to 12. */
  lemma MonthTextTwoDigits(t: string)
    requires |t| == 2 && AllDigits(t)
    ensures MonthText(t) <==> 1 <= DigitsValue(t) <= 12
  {
    TwoDigitsValue(t);
  }

  /** A two-digit day text is accepted exactly for 01 to 31, with its
      plain value. */
  lemma DayTextTwoDigits(t: string)
    requires |t| == 2 && AllDigits(t)
    ensures DayText(t) <==> 1 <= DigitsValue(t) <= 31
    ensures DayText(t) ==> DayValue(t) == DigitsValue(t)
  {
    TwoDigitsValue(t);
  }

  /** A date of birth of the form the patient schema admits, naming a real
      calendar date, has age `currentYear - year`; any other value has age
      0. */
  lemma AgeOfShapedDate(s: string, currentYear: int)
    requires PatientSchemas.DateShaped(s)
    ensures var y := PatientSchemas.YearOf(s);
            var m := PatientSchemas.MonthOf(s);
            var d := PatientSchemas.DayOf(s);
            CalculateAge(s, currentYear) ==
              if 1 <= y && 1 <= m <= 12 && 1 <= d && d <= DaysInMonth(y, m) then currentYear - y else 0
  {
    var r := s[5..];
    assert r[..2] == s[5..7];
    assert r[3..] == s[8..];
    assert r[1] == s[6] && r[2] == s[7];
    MonthTextTwoDigits(s[5..7]);
    DayTextTwoDigits(s[8..]);
    DigitsValueBound(s[..4]);
    assert Pow10(4) == 10000;
  }

  /** A value that `strptime` rejects gets age 0; parsing never fails the
      caller. */
  lemma AgeOfUnparseable(s: string, currentYear: int)
    requires ParseDate(s).None?
    ensures CalculateAge(s, currentYear) == 0
  {
  }

  /** "2000-01-01" gives `currentYear - 2000`. */
  lemma AgeExample(currentYear: int)
    ensures CalculateAge("2000-01-01", currentYear) == currentYear - 2000
  {
    var s := "2000-01-01";
    assert PatientSchemas.DateShaped(s);
    assert s[..4] == "2000" && s[5..7] == "01" && s[8..] == "01";
    assert "2000"[..3] == "200" && "200"[..2] == "20" && "20"[..1] == "2";
    assert DigitsValue("2000") == 2000;
    TwoDigitsValue("01");
    AgeOfShapedDate(s, currentYear);
  }

  /** The date validator has no calendar check but `strptime` does:
      "2001-02-31" is accepted as a date of birth and yet gets age 0. */
  lemma ValidatedButUnparseable(currentYear: int)
    requires currentYear >= 2001
    ensures PatientSchemas.CheckDateOfBirth("2001-02-31", currentYear).Ok?
    ensures CalculateAge("2001-02-31", currentYear) == 0
  {
    PatientSchemas.NoCalendarCheck(currentYear);
    var s := "2001-02-31";
    assert s[..4] == "2001" && s[5..7] == "02" && s[8..] == "31";
    assert "2001"[..3] == "200" && "200"[..2] == "20" && "20"[..1] == "2";
    AgeOfShapedDate(s, currentYear);
  }

  // ---------------------------------------------------------------------
  // Notes text and prompt

  /** One note as the summary service hands it over: its ISO timestamp
      text and its content. */
  datatype NoteData = NoteData(timestamp: string, content: string)

  /** `f"Note {i+1} ({note['timestamp']}):\n{note['content']}"`. */
  function NoteEntry(i: nat, note: NoteData): string {
    "Note " + IntToString(i + 1) + " (" + note.timestamp + "):\n" + note.content
  }

  function NoteEntries(notes: seq<NoteData>): seq<string> {
    seq(|notes|, i requires 0 <= i < |notes| => NoteEntry(i, notes[i]))
  }

  /** The notes section: the numbered entries separated by blank lines. */
  function NotesText(notes: seq<NoteData>): string {
    Join("\n\n", NoteEntries(notes))
  }

  /** The notes text is empty exactly for an empty list. */
  lemma NotesTextEmpty(notes: seq<NoteData>)
    ensures NotesText(notes) == "" <==> notes == []
  {
    JoinEmpty("\n\n", NoteEntries(notes));
    if notes != [] {
      assert NoteEntries(notes)[0][0] == 'N';
    }
  }

  /** Adding a note appends a blank line and its entry, numbered after the
      others. */
  lemma NotesTextSnoc(notes: seq<NoteData>, n: NoteData)
    requires notes != []
    ensures NotesText(notes + [n]) == NotesText(notes) + "\n\n" + NoteEntry(|notes|, n)
  {
    assert NoteEntries(notes + [n]) == NoteEntries(notes) + [NoteEntry(|notes|, n)];
    JoinSnoc("\n\n", NoteEntries(notes), NoteEntry(|notes|, n));
  }

  /** A single note's text is its entry numbered 1. */
  lemma NotesTextSingle(n: NoteData)
    ensures NotesText([n]) == "Note 1 (" + n.timestamp + "):\n" + n.content
  {
    assert NoteEntries([n]) == [NoteEntry(0, n)];
    assert IntToString(1) == "1";
  }

  /** Every entry, and so every note's content, occurs in the notes text. */
  lemma NotesTextContains(notes: seq<NoteData>, i: nat)
    requires i < |notes|
    ensures IsInfix(NoteEntry(i, notes[i]), NotesText(notes))
    ensures IsInfix(notes[i].content, NotesText(notes))
  {
    JoinContainsParts("\n\n", NoteEntries(notes), i);
    var e := NoteEntry(i, notes[i]);
    var t := NotesText(notes);
    var k :| 0 <= k <= |t| && IsPrefix(e, t[k..]);
    var off := |e| - |notes[i].content|;
    assert e[off..] == notes[i].content;
    assert t[k + off..][..|notes[i].content|] == notes[i].content;
  }

  /** `_build_prompt`. */
  function BuildPrompt(name: string, dateOfBirth: string, notes: seq<NoteData>, currentYear: int): string {
    SummaryPrompt(name, IntToString(CalculateAge(dateOfBirth, currentYear)), dateOfBirth, NotesText(notes))
  }

  /** The prompt is the template with the name, the age, the date of birth
      and the notes text substituted, each of them verbatim. */
  lemma BuildPromptText(name: string, dateOfBirth: string, notes: seq<NoteData>, currentYear: int)
    ensures var age := IntToString(CalculateAge(dateOfBirth, currentYear));
      BuildPrompt(name, dateOfBirth, notes, currentYear)
        == Opening + (name + (AfterName + (age + (AfterAge + (dateOfBirth
           + (AfterDateOfBirth + (NotesText(notes) + Closing)))))))
  {
    SummaryPromptText(name, IntToString(CalculateAge(dateOfBirth, currentYear)), dateOfBirth, NotesText(notes));
  }

  /** The name, the date of birth and the notes text each occur verbatim
      in the prompt. */
  lemma BuildPromptContains(name: string, dateOfBirth: string, notes: seq<NoteData>, currentYear: int)
    ensures IsInfix(name, BuildPrompt(name, dateOfBirth, notes, currentYear))
    ensures IsInfix(dateOfBirth, BuildPrompt(name, dateOfBirth, notes, currentYear))
    ensures IsInfix(NotesText(notes), BuildPrompt(name, dateOfBirth, notes, currentYear))
  {
    SummaryPromptContains(name, IntToString(CalculateAge(dateOfBirth, currentYear)), dateOfBirth, NotesText(notes));
  }

  // ---------------------------------------------------------------------
  // The provider and the summary request

  /** What a provider call gives back: the summary text, or the error it
      raised. */
  datatype ProviderReply = Summary(text: string) | Failure(cause: string)

  /** A provider (`LLMProvider`). Its answers are an oracle fixed when it is
      built; `prompts` records every prompt it was sent. */
  class Provider {
    const respond: string -> ProviderReply
    ghost var prompts: seq<string>

    constructor (respond: string -> ProviderReply)
      ensures this.respond == respond && prompts == []
    {
      this.respond := respond;
      prompts := [];
    }

    /** `generate_summary(prompt)`. */
    method GenerateSummary(prompt: string) returns (reply: ProviderReply)
      modifies this
      ensures reply == respond(prompt)
      ensures prompts == old(prompts) + [prompt]
    {
      reply := respond(prompt);
      prompts := prompts + [prompt];
    }
  }

  const NoNotesMessage: string := "No medical notes available for this patient."
  const FailureMessage: string := "Failed to generate patient summary"

  /** `SummaryGenerationError`, carrying the provider's error as its
      cause. */
  datatype SummaryError = SummaryGenerationError(message: string, cause: string)

  /** The outcome of `generate_patient_summary` for a provider that
      answers `respond`. */
  function SummaryOutcome(respond: string -> ProviderReply, name: string, dateOfBirth: string,
                          notes: seq<NoteData>, currentYear: int): Result<string, SummaryError>
  {
    if notes == [] then Ok(NoNotesMessage)
    else
      match respond(BuildPrompt(name, dateOfBirth, notes, currentYear))
      case Summary(t) => Ok(t)
      case Failure(e) => Err(SummaryGenerationError(FailureMessage, e))
  }

  /** An empty list gives the fixed message whatever the provider would
      say; otherwise the result is the provider's answer to the built
      prompt, unchanged, or the wrapped failure with its cause kept. */
  lemma SummaryOutcomeCases(respond: string -> ProviderReply, name: string, dateOfBirth: string,
                            notes: seq<NoteData>, currentYear: int)
    ensures notes == [] ==> SummaryOutcome(respond, name, dateOfBirth, notes, currentYear) == Ok(NoNotesMessage)
    ensures notes != [] ==>
      var reply := respond(BuildPrompt(name, dateOfBirth, notes, currentYear));
      var r := SummaryOutcome(respond, name, dateOfBirth, notes, currentYear);
      (r.Ok? <==> reply.Summary?)
      && (r.Ok? ==> r.value == reply.text)
      && (r.Err? ==> r.error.message == FailureMessage && r.error.cause == reply.cause)
  {
  }

  /** `LLMService`, holding the provider chosen when it was built. */
  class LlmService {
    const provider: Provider

    constructor (provider: Provider)
      ensures this.provider == provider
    {
      this.provider := provider;
    }

    /** `generate_patient_summary`: no call at all for an empty list,
        otherwise exactly one call with the built prompt. */
    method GeneratePatientSummary(name: string, dateOfBirth: string, notes: seq<NoteData>, currentYear: int)
      returns (r: Result<string, SummaryError>)
      modifies provider
      ensures r == SummaryOutcome(provider.respond, name, dateOfBirth, notes, currentYear)
      ensures notes == [] ==> provider.prompts == old(provider.prompts)
      ensures notes != [] ==>
        provider.prompts == old(provider.prompts) + [BuildPrompt(name, dateOfBirth, notes, currentYear)]
    {
      if notes == [] {
        return Ok(NoNotesMessage);
      }
      var prompt := BuildPrompt(name, dateOfBirth, notes, currentYear);
      var reply := provider.GenerateSummary(prompt);
      match reply
      case Summary(t) => r := Ok(t);
      case Failure(e) => r := Err(SummaryGenerationError(FailureMessage, e));
    }
  }

  /** `LLMService()`: builds the service with the provider the settings
      select, or fails with the selection's message. */
  method NewLlmService(settings: LlmSettings, respond: string -> ProviderReply)
    returns (r: Result<LlmService, string>)
    ensures r.Ok? <==> SelectProvider(settings).Ok?
    ensures r.Err? ==> r.error == SelectProvider(settings).error
    ensures r.Ok? ==>
      fresh(r.value) && fresh(r.value.provider)
      && r.value.provider.respond == respond && r.value.provider.prompts == []
  {
    match SelectProvider(settings)
    case Err(e) =>
      r := Err(e);
    case Ok(_) =>
      var p := new Provider(respond);
      var s := new LlmService(p);
      r := Ok(s);
  }
}
