/**
 * The adapters around the language-model oracles (src/utils.ts): how the
 * next-event prompt is assembled, how a generation reply is shaped, how a
 * critic's reply is turned into a score in [1,10], and the judge's average and
 * fallbacks. The HTTP call itself is not modelled: its answer (or the exception
 * it raised) is a parameter.
 */
module Utils {
  import opened Wrappers
  import Text

  /** The fields of the events diagram's `modelData` that generation reads. */
  datatype ModelData = ModelData(
    eventPrompt: string,
    eventLikelihood: Option<seq<int>>,     // None: the field is not an array
    eventSeverity: Option<seq<int>>,       // None: the field is not an array
    eventTemperature: Option<seq<real>>,   // None: the field is absent
    entitiesDescription: string,
    includeEntityGraph: bool)

  /** What `generateNextEvent` and `generatePreviousEvent` resolve to. */
  datatype NextEvent = NextEvent(text: string, eventLikelihood: seq<int>, eventSeverity: seq<int>)

  // ---------------------------------------------------------------------------
  // Likelihood and severity labels
  // ---------------------------------------------------------------------------

  const Levels: seq<string> := ["very low", "low", "medium", "high", "very high"]

  /** The index a scale selects, when the scale is a non-empty array. */
  predicate SelectsLevel(scale: Option<seq<int>>)
  {
    scale.Some? && |scale.value| > 0 && 1 <= scale.value[0] <= 5
  }

  /**
   * `['very low', …, 'very high'][idx - 1] || 'medium'` for `idx = scale[0]`:
   * the `likelihoodText` and `severityText` of `generateNextEvent`, which the
   * source computes but never puts into the prompt (so `NextPrompt` has no
   * label in it).
   */
  function LevelLabel(scale: Option<seq<int>>): (r: string)
    ensures r in Levels
    ensures SelectsLevel(scale) ==> r == Levels[scale.value[0] - 1]
    ensures r == "medium" <==> !SelectsLevel(scale) || scale.value[0] == 3
  {
    if SelectsLevel(scale) then Levels[scale.value[0] - 1] else "medium"
  }

  // ---------------------------------------------------------------------------
  // The next-event prompt
  // ---------------------------------------------------------------------------

  /** The storyteller instructions that open the prompt (their wording is not modelled). */
  const Instructions: string := "\n--- INSTRUCTIONS ---\n"
  const ContextHeader: string := "\n[STORY CONTEXT]\n"
  const SoFarHeader: string := "Events in the story so far:\n"
  const NoPriorEvents: string := "(No prior events)"
  const EntityHeader: string := "\nConsider this entity graph (characters, locations, relationships):\n"
  const UserHeader: string := "\nAdditional user context:\n"
  const GuessesHeader: string := "\nPreviously generated next events in the story:\n"
  const FinalLine: string := "\nNow, considering the instructions and the story context above, write the next event:\n"

  /** The story-context part: the parents as bullets, or the no-events marker. */
  function ContextSection(parents: seq<string>): (r: string)
    ensures |parents| == 0 ==> r == Instructions + ContextHeader + NoPriorEvents + "\n\n"
    ensures |parents| > 0 ==> r == Instructions + ContextHeader + SoFarHeader + Text.Bulleted(parents) + "\n\n"
  {
    var parentsText := if |parents| > 0 then Text.Bulleted(parents) else "";
    Instructions + ContextHeader
      + (if parentsText != "" then SoFarHeader + parentsText else NoPriorEvents)
      + "\n\n"
  }

  /** Present only when there is an entity description and it is to be included. */
  function EntitySection(md: ModelData): (r: string)
    ensures r == "" <==> md.entitiesDescription == "" || !md.includeEntityGraph
  {
    if md.entitiesDescription != "" && md.includeEntityGraph
    then EntityHeader + md.entitiesDescription + "\n" else ""
  }

  /** Present only when the user wrote an event prompt. */
  function UserSection(md: ModelData): (r: string)
    ensures r == "" <==> md.eventPrompt == ""
  {
    if md.eventPrompt != "" then UserHeader + md.eventPrompt + "\n" else ""
  }

  /** Present exactly when the node already has forward guesses; lists them as bullets. */
  function GuessesSection(prevGuessesForward: Option<seq<string>>): (r: string)
    ensures r == "" <==> prevGuessesForward.None? || |prevGuessesForward.value| == 0
    ensures r != "" ==> r == GuessesHeader + Text.Bulleted(prevGuessesForward.value) + "\n"
  {
    if prevGuessesForward.Some? && |prevGuessesForward.value| > 0
    then GuessesHeader + Text.Bulleted(prevGuessesForward.value) + "\n" else ""
  }

  /** The whole next-event prompt: context, the optional sections in order, the closing line. */
  function NextPrompt(prevGuessesForward: Option<seq<string>>, parents: seq<string>, md: ModelData): string
  {
    ContextSection(parents) + EntitySection(md) + UserSection(md)
      + GuessesSection(prevGuessesForward) + FinalLine
  }

  lemma EndsWithAppend(a: string, b: string)
    ensures Text.EndsWith(a + b, b)
  {
    assert (a + b)[|a + b| - |b|..] == b;
  }

  lemma StartsWithExtend(s: string, p: string, t: string)
    requires Text.StartsWith(s, p)
    ensures Text.StartsWith(s + t, p)
  {
    assert (s + t)[..|p|] == s[..|p|];
  }

  /**
   * Every next-event prompt opens with the instructions and the story-context
   * header and closes with the "write the next event" line.
   */
  lemma NextPromptFrame(prevGuessesForward: Option<seq<string>>, parents: seq<string>, md: ModelData)
    ensures Text.StartsWith(NextPrompt(prevGuessesForward, parents, md), Instructions + ContextHeader)
    ensures Text.EndsWith(NextPrompt(prevGuessesForward, parents, md), FinalLine)
  {
    var head := Instructions + ContextHeader;
    var context := ContextSection(parents);
    var mid := if |parents| > 0 then SoFarHeader + Text.Bulleted(parents) else NoPriorEvents;
    assert context == head + mid + "\n\n";
    StartsWithExtend(head, head, []);
    assert head + [] == head;
    StartsWithExtend(head, head, mid);
    StartsWithExtend(head + mid, head, "\n\n");
    StartsWithExtend(context, head, EntitySection(md));
    StartsWithExtend(context + EntitySection(md), head, UserSection(md));
    StartsWithExtend(context + EntitySection(md) + UserSection(md), head, GuessesSection(prevGuessesForward));
    var body := context + EntitySection(md) + UserSection(md) + GuessesSection(prevGuessesForward);
    StartsWithExtend(body, head, FinalLine);
    EndsWithAppend(body, FinalLine);
  }

  /**
   * `generateNextEvent`'s `let prompt = …; prompt += …` sequence, one
   * conditional append per optional section.
   */
  method NextEventPrompt(prevGuessesForward: Option<seq<string>>, parents: seq<string>, md: ModelData)
    returns (prompt: string)
    ensures prompt == NextPrompt(prevGuessesForward, parents, md)
  {
    prompt := ContextSection(parents);
    if md.entitiesDescription != "" && md.includeEntityGraph {
      prompt := prompt + EntitySection(md);
    } else {
      assert prompt + EntitySection(md) == prompt;
    }
    if md.eventPrompt != "" {
      prompt := prompt + UserSection(md);
    } else {
      assert prompt + UserSection(md) == prompt;
    }
    if prevGuessesForward.Some? && |prevGuessesForward.value| > 0 {
      prompt := prompt + GuessesSection(prevGuessesForward);
    } else {
      assert prompt + GuessesSection(prevGuessesForward) == prompt;
    }
    prompt := prompt + FinalLine;
  }

  /** `generateNextEvent`'s result: the reply text, and the scales or `[3]` when they are not arrays. */
  function ShapeNextEvent(response: string, md: ModelData): (e: NextEvent)
    ensures e.text == response
    ensures e.eventLikelihood == (if md.eventLikelihood.Some? then md.eventLikelihood.value else [3])
    ensures e.eventSeverity == (if md.eventSeverity.Some? then md.eventSeverity.value else [3])
  {
    NextEvent(response, md.eventLikelihood.GetOr([3]), md.eventSeverity.GetOr([3]))
  }

  /**
   * `generateNextEvent`: the prompt is sent to the model `call` (which may
   * throw); its reply becomes the event text.
   */
  method GenerateNextEvent(prevGuessesForward: Option<seq<string>>, parents: seq<string>, md: ModelData,
                           call: string -> Outcome<string>)
    returns (r: Outcome<NextEvent>)
    ensures call(NextPrompt(prevGuessesForward, parents, md)).Thrown? ==> r.Thrown?
    ensures call(NextPrompt(prevGuessesForward, parents, md)).Ok? ==>
      r == Ok(ShapeNextEvent(call(NextPrompt(prevGuessesForward, parents, md)).value, md))
  {
    var prompt := NextEventPrompt(prevGuessesForward, parents, md);
    var response := call(prompt);
    if response.Thrown? {
      return Thrown;
    }
    r := Ok(ShapeNextEvent(response.value, md));
  }

  // ---------------------------------------------------------------------------
  // The previous-event prompt
  // ---------------------------------------------------------------------------

  /** `[…labels][l - 1]` without a fallback: out of range reads `undefined`. */
  function PreviousLabel(scale: seq<int>): (r: string)
    ensures |scale| > 0 && 1 <= scale[0] <= 5 ==> r == Levels[scale[0] - 1]
    ensures !(|scale| > 0 && 1 <= scale[0] <= 5) ==> r == "undefined"
  {
    if |scale| > 0 && 1 <= scale[0] <= 5 then Levels[scale[0] - 1] else "undefined"
  }

  const PreviousEntityHeader: string := "Consider this graph of entities and their relationships in your response:\n"
  const PreviousUserHeader: string := "Additional context from the user: "
  const PreviousGuessesHeader: string := "You have previously guessed the following events:\n"

  /**
   * `generatePreviousEvent`'s prompt: the question naming both labels, the current
   * event as a bullet, then the optional entity, user and guesses sections (only
   * the question's wording is abbreviated).
   */
  function PreviousPrompt(text: string, prevGuessesBackward: seq<string>, likelihood: seq<int>,
                          severity: seq<int>, md: ModelData): string
  {
    "Given the below context, what is a " + PreviousLabel(likelihood)
      + " likelihood prior cause or event with a " + PreviousLabel(severity)
      + " impact that could lead to the current event?\n"
      + "Current event:\n- " + text + "\n"
      + (if md.entitiesDescription != "" && md.includeEntityGraph
         then PreviousEntityHeader + md.entitiesDescription + "\n" else "")
      + (if md.eventPrompt != "" then PreviousUserHeader + md.eventPrompt + "\n" else "")
      + (if |prevGuessesBackward| > 0
         then PreviousGuessesHeader + Text.Bulleted(prevGuessesBackward) + "\n" else "")
  }

  /**
   * Whether `generatePreviousEvent` throws before it reaches the model: it maps
   * over both scales, indexes the temperature array and reads the length of
   * the node's backward guesses, so any of them missing raises a TypeError.
   */
  predicate PreviousEventThrows(prevGuessesBackward: Option<seq<string>>, md: ModelData)
  {
    md.eventLikelihood.None? || md.eventSeverity.None? || md.eventTemperature.None?
    || prevGuessesBackward.None?
  }

  /**
   * `generatePreviousEvent`: the reply, with the scales passed through unchanged,
   * or the exception raised before or during the call.
   */
  function GeneratePreviousEvent(text: string, prevGuessesBackward: Option<seq<string>>, md: ModelData,
                                 call: string -> Outcome<string>): (r: Outcome<NextEvent>)
    ensures r.Ok? <==>
              && !PreviousEventThrows(prevGuessesBackward, md)
              && call(PreviousPrompt(text, prevGuessesBackward.value, md.eventLikelihood.value,
                                     md.eventSeverity.value, md)).Ok?
    ensures r.Ok? ==>
              && r.value.eventLikelihood == md.eventLikelihood.value
              && r.value.eventSeverity == md.eventSeverity.value
              && r.value.text == call(PreviousPrompt(text, prevGuessesBackward.value,
                                                     md.eventLikelihood.value, md.eventSeverity.value, md)).value
  {
    if PreviousEventThrows(prevGuessesBackward, md) then Thrown
    else
      var prompt := PreviousPrompt(text, prevGuessesBackward.value, md.eventLikelihood.value,
                                   md.eventSeverity.value, md);
      match call(prompt)
      case Thrown => Thrown
      case Ok(reply) => Ok(NextEvent(reply, md.eventLikelihood.value, md.eventSeverity.value))
  }

  // ---------------------------------------------------------------------------
  // JavaScript parseInt(s, 10) and the critic score
  // ---------------------------------------------------------------------------

  /** JavaScript's white space and line terminators, which `parseInt` skips first. */
  predicate IsJsSpace(ch: char)
  {
    var c := ch as int;
    c == 0x09 || c == 0x0A || c == 0x0B || c == 0x0C || c == 0x0D || c == 0x20
    || c == 0xA0 || c == 0x1680 || (0x2000 <= c <= 0x200A) || c == 0x2028 || c == 0x2029
    || c == 0x202F || c == 0x205F || c == 0x3000 || c == 0xFEFF
  }

  predicate IsDigit(ch: char)
  {
    '0' <= ch <= '9'
  }

  function JsLeadingSpaces(s: string): (n: nat)
    ensures n <= |s|
    ensures forall k :: 0 <= k < n ==> IsJsSpace(s[k])
    ensures n < |s| ==> !IsJsSpace(s[n])
  {
    if |s| == 0 || !IsJsSpace(s[0]) then 0 else 1 + JsLeadingSpaces(s[1..])
  }

  /** The length of the run of decimal digits that opens `s`. */
  function DigitRun(s: string): (n: nat)
    ensures n <= |s|
    ensures forall k :: 0 <= k < n ==> IsDigit(s[k])
    ensures n < |s| ==> !IsDigit(s[n])
  {
    if |s| == 0 || !IsDigit(s[0]) then 0 else 1 + DigitRun(s[1..])
  }

  /** The value of a string of decimal digits, read most significant first. */
  function DigitsValue(s: string): nat
    requires forall k :: 0 <= k < |s| ==> IsDigit(s[k])
  {
    if |s| == 0 then 0
    else
      var last := s[|s| - 1];
      assert IsDigit(last);
      10 * DigitsValue(s[..|s| - 1]) + (last as int - '0' as int)
  }

  /** The digit run that opens `u`, read as a number; None when there is none. */
  function LeadingNumber(u: string): Option<nat>
  {
    var n := DigitRun(u);
    if n == 0 then None else Some(DigitsValue(u[..n]))
  }

  /** An optional sign followed by digits; None when no digit follows the sign. */
  function SignedNumber(t: string): Option<int>
  {
    if |t| > 0 && t[0] == '-' then
      match LeadingNumber(t[1..])
      case None => None
      case Some(v) => Some(-(v as int))
    else if |t| > 0 && t[0] == '+' then
      match LeadingNumber(t[1..])
      case None => None
      case Some(v) => Some(v as int)
    else
      match LeadingNumber(t)
      case None => None
      case Some(v) => Some(v as int)
  }

  /** `parseInt(s, 10)`: white space is skipped, then a signed number is read; None stands for NaN. */
  function JsParseInt(s: string): Option<int>
  {
    SignedNumber(s[JsLeadingSpaces(s)..])
  }

  /** The decimal rendering of a natural number, without leading zeros. */
  function DecimalString(n: nat): (r: string)
    ensures |r| >= 1
    ensures forall k :: 0 <= k < |r| ==> IsDigit(r[k])
  {
    if n < 10 then [('0' as int + n) as char]
    else DecimalString(n / 10) + [('0' as int + n % 10) as char]
  }

  lemma {:induction false} DigitsValueOfDecimal(n: nat)
    ensures DigitsValue(DecimalString(n)) == n
  {
    var r := DecimalString(n);
    if n >= 10 {
      DigitsValueOfDecimal(n / 10);
      assert r[..|r| - 1] == DecimalString(n / 10);
    }
  }

  /** A string whose first `m` characters are digits and whose next one is not has a digit run of `m`. */
  lemma {:induction false} DigitRunIs(s: string, m: nat)
    requires m <= |s|
    requires forall k :: 0 <= k < m ==> IsDigit(s[k])
    requires m < |s| ==> !IsDigit(s[m])
    ensures DigitRun(s) == m
  {
    if m > 0 {
      DigitRunIs(s[1..], m - 1);
    }
  }

  /** The digits of a rendered number are read back, whatever non-digit text follows. */
  lemma LeadingNumberOfDecimal(n: nat, rest: string)
    requires rest == [] || !IsDigit(rest[0])
    ensures LeadingNumber(DecimalString(n) + rest) == Some(n)
  {
    var d := DecimalString(n);
    var u := d + rest;
    DigitRunIs(u, |d|);
    assert u[..|d|] == d;
    DigitsValueOfDecimal(n);
  }

  /** `parseInt` reads back a rendered number, whatever non-digit text follows it ("7/10", "7. Good event"). */
  lemma ParseIntReadsUnsigned(n: nat, rest: string)
    requires rest == [] || !IsDigit(rest[0])
    ensures JsParseInt(DecimalString(n) + rest) == Some(n as int)
  {
    var d := DecimalString(n);
    var u := d + rest;
    LeadingNumberOfDecimal(n, rest);
    assert u[0] == d[0] && IsDigit(u[0]);
    assert JsLeadingSpaces(u) == 0;
    assert u[0..] == u;
  }

  /** A minus sign in front of a number that `parseInt` reads negates it. */
  lemma ParseIntNegated(u: string, v: nat)
    requires LeadingNumber(u) == Some(v)
    ensures JsParseInt("-" + u) == Some(-(v as int))
  {
    var s := "-" + u;
    assert s[1..] == u;
    assert JsLeadingSpaces(s) == 0 && s[0..] == s;
  }

  /** The same with an optional minus sign in front. */
  lemma ParseIntReadsDecimal(n: nat, rest: string, negative: bool)
    requires rest == [] || !IsDigit(rest[0])
    ensures JsParseInt((if negative then "-" else "") + DecimalString(n) + rest)
            == Some(if negative then -(n as int) else n as int)
  {
    var d := DecimalString(n);
    var t := (if negative then "-" else "") + d + rest;
    if negative {
      assert t == "-" + (d + rest);
      LeadingNumberOfDecimal(n, rest);
      ParseIntNegated(d + rest, n);
    } else {
      assert t == d + rest;
      ParseIntReadsUnsigned(n, rest);
    }
  }

  /**
   * `scoreEventWithOpenAI`: the critic's reply parsed with `parseInt`; NaN, a
   * value outside 1..10, or a failed call all give 5.
   */
  function ScoreEventWithOpenAI(response: Outcome<string>): (score: int)
    ensures 1 <= score <= 10
    ensures response.Thrown? ==> score == 5
    ensures response.Ok? ==>
      var p := JsParseInt(response.value);
      score == (if p.Some? && 1 <= p.value <= 10 then p.value else 5)
  {
    match response
    case Thrown => 5
    case Ok(reply) =>
      var p := JsParseInt(reply);
      if p.None? || p.value < 1 || p.value > 10 then 5 else p.value
  }

  /** A reply that starts with a score in range is read as that score. */
  lemma ScoreReadsLeadingNumber(n: nat, rest: string)
    requires 1 <= n <= 10
    requires rest == [] || !IsDigit(rest[0])
    ensures ScoreEventWithOpenAI(Ok(DecimalString(n) + rest)) == n
  {
    ParseIntReadsUnsigned(n, rest);
  }

  // ---------------------------------------------------------------------------
  // The judge: seven categories, their rounded average, and the fallbacks
  // ---------------------------------------------------------------------------

  /**
   * The judge's seven category ratings as they come out of `JSON.parse`. The
   * response schema is not strict, so a category may be missing (`None`).
   */
  datatype Judgement = Judgement(
    overallQuality: Option<int>, identifyingMajorFlaws: Option<int>, characterBehavior: Option<int>,
    commonSenseAdherence: Option<int>, consistency: Option<int>, relatedness: Option<int>,
    causalTemporalRelationship: Option<int>)

  /** The judge's JSON after parsing: `judgement` may be missing from what the model sent. */
  datatype JudgeReply = JudgeReply(judgement: Option<Judgement>, comments: string)

  /** The seven ratings, in the order `scoreEventWithJudge` adds them. */
  function Categories(j: Judgement): seq<Option<int>>
  {
    [j.overallQuality, j.identifyingMajorFlaws, j.characterBehavior, j.commonSenseAdherence,
     j.consistency, j.relatedness, j.causalTemporalRelationship]
  }

  /** Every category is present. */
  predicate Complete(j: Judgement)
  {
    forall c :: c in Categories(j) ==> c.Some?
  }

  function CategorySum(j: Judgement): int
    requires Complete(j)
  {
    var cs := Categories(j);
    assert forall i :: 0 <= i < 7 ==> cs[i] in cs;
    cs[0].value + cs[1].value + cs[2].value + cs[3].value + cs[4].value + cs[5].value + cs[6].value
  }

  predicate InScoreRange(j: Judgement)
  {
    forall c :: c in Categories(j) ==> c.Some? && 1 <= c.value <= 10
  }

  const AllFives: Judgement := Judgement(Some(5), Some(5), Some(5), Some(5), Some(5), Some(5), Some(5))

  /**
   * `judgeNarrative`: a failed call and an unparsable reply both give the
   * all-fives judgement; otherwise whatever `JSON.parse` (the parameter `parse`)
   * made of the reply.
   */
  function JudgeNarrative(call: Outcome<string>, parse: string -> Option<JudgeReply>): (r: JudgeReply)
    ensures call.Thrown? ==> r == JudgeReply(Some(AllFives), "Error calling OpenAI")
    ensures call.Ok? && parse(call.value).None? ==>
      r.judgement == Some(AllFives) && Text.StartsWith(r.comments, "Could not parse JSON.")
    ensures call.Ok? && parse(call.value).Some? ==> r == parse(call.value).value
  {
    match call
    case Thrown => JudgeReply(Some(AllFives), "Error calling OpenAI")
    case Ok(text) =>
      match parse(text)
      case None =>
        var c := "Could not parse JSON. Raw response:\n" + text;
        assert c[..|"Could not parse JSON."|] == "Could not parse JSON.";
        JudgeReply(Some(AllFives), c)
      case Some(reply) => reply
  }

  /** `Math.round(sum / 7)`: rounds halves upwards. */
  function RoundSevenths(sum: int): (r: int)
    ensures 14 * r - 7 <= 2 * sum < 14 * r + 7
  {
    (2 * sum + 7) / 14
  }

  /**
   * `scoreEventWithJudge`: the rounded mean of the seven categories, or 5
   * without a judgement. A missing category is `undefined` in the sum, which
   * makes the sum, the mean and the rounding NaN: that is `None` here, and it
   * is returned as the score.
   */
  function ScoreEventWithJudge(reply: JudgeReply): (score: Option<int>)
    ensures reply.judgement.None? ==> score == Some(5)
    ensures reply.judgement.Some? ==> (score.None? <==> !Complete(reply.judgement.value))
    ensures reply.judgement.Some? && Complete(reply.judgement.value) ==>
      14 * score.value - 7 <= 2 * CategorySum(reply.judgement.value) < 14 * score.value + 7
  {
    match reply.judgement
    case None => Some(5)
    case Some(j) => if Complete(j) then Some(RoundSevenths(CategorySum(j))) else None
  }

  /** When every category is a legal rating, so is the judge score; the fallback scores 5. */
  lemma JudgeScoreInRange(reply: JudgeReply)
    requires reply.judgement.Some? ==> InScoreRange(reply.judgement.value)
    ensures ScoreEventWithJudge(reply).Some? && 1 <= ScoreEventWithJudge(reply).value <= 10
    ensures reply.judgement == Some(AllFives) ==> ScoreEventWithJudge(reply) == Some(5)
  {
    if reply.judgement.Some? {
      var cs := Categories(reply.judgement.value);
      assert forall i :: 0 <= i < 7 ==> cs[i] in cs;
    }
  }
}
