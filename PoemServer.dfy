/** The poem server: the token gate `validate`, the template renderer
    `fallback_poem`, and `generate_poem`, which logs every call and then
    answers either with the external model's text or with the template poem. */
module PoemServer {
  import opened Wrappers
  import opened PyStr

  /** Default of the `AUTH_TOKEN` setting when the environment does not set it. */
  const DefaultAuthToken := "dev-token"

  const HaikuStyle := "haiku"
  const ShortLength := "short"
  const FunnyTone := "funny"
  const CheeseSuffix := " (and maybe some cheese)."

  /** The template lines that do not depend on the arguments. */
  const HaikuLine2 := "soft winds drift across the sky"
  const HaikuLine3 := "hope wakes quietly"
  const WhispersLine := "Whispers and dreams held in my hand."
  const StardustLine := "Woven in stardust, silver and gold."

  // ---------------------------------------------------------------- validate

  datatype ValidateResult = Ok(number: string) | InvalidToken | NumberNotSet

  /** The configured `AUTH_TOKEN`: the environment's value if it has one, else the default. */
  function AuthToken(env: Option<string>): (token: string)
    ensures env.None? ==> token == DefaultAuthToken
    ensures env.Some? ==> token == env.value
  {
    env.GetOr(DefaultAuthToken)
  }

  /** Python's truth test on `MY_NUMBER`: `None` and `""` both count as not set. */
  predicate NumberIsSet(myNumber: Option<string>)
  {
    myNumber.Some? && myNumber.value != ""
  }

  /** `validate(token)`: rejects a wrong token first, then a missing number,
      and otherwise hands back the configured number unchanged. */
  function Validate(token: string, authToken: string, myNumber: Option<string>): (r: ValidateResult)
    ensures r == InvalidToken <==> token != authToken
    ensures r == NumberNotSet <==> token == authToken && !NumberIsSet(myNumber)
    ensures r.Ok? <==> token == authToken && NumberIsSet(myNumber)
    ensures r.Ok? ==> myNumber == Some(r.number) && r.number != ""
  {
    if token != authToken then InvalidToken
    else if !NumberIsSet(myNumber) then NumberNotSet
    else Ok(myNumber.value)
  }

  // ------------------------------------------------------------ fallback_poem

  /** The three haiku lines, with `theme` spliced into the first. */
  function HaikuLines(theme: string): (lines: seq<string>)
    ensures |lines| == 3 && lines[1..] == [HaikuLine2, HaikuLine3]
    ensures theme <= lines[0]
  {
    [theme + " at sunrise", HaikuLine2, HaikuLine3]
  }

  /** The four-line template with `tone` and `theme` spliced in verbatim;
      for the funny tone the suffix is added to the last line. */
  function TemplateLines(theme: string, tone: string): (lines: seq<string>)
    ensures |lines| == 4
    ensures lines[..3] == ["In the " + tone + " light of " + theme + ", I stand,",
                           WhispersLine, "The " + theme + " sings a story untold,"]
    ensures lines[3] == StardustLine + CheeseSuffix <==> tone == FunnyTone
    ensures tone != FunnyTone ==> lines[3] == StardustLine
  {
    var lines := [
      "In the " + tone + " light of " + theme + ", I stand,",
      WhispersLine,
      "The " + theme + " sings a story untold,",
      StardustLine
    ];
    if tone == FunnyTone then lines[|lines| - 1 := lines[|lines| - 1] + CheeseSuffix] else lines
  }

  /** The lines of `fallback_poem(theme, style, length, tone)`: the haiku for the
      style "haiku" exactly, otherwise the template, cut to three lines when
      the length is "short" exactly. */
  function FallbackLines(theme: string, style: string, length: string, tone: string): (lines: seq<string>)
    ensures |lines| == if style != HaikuStyle && length != ShortLength then 4 else 3
    ensures style == HaikuStyle ==> lines == HaikuLines(theme)
    ensures style != HaikuStyle ==> lines == TemplateLines(theme, tone)[..|lines|]
  {
    if style == HaikuStyle then HaikuLines(theme)
    else
      var lines := TemplateLines(theme, tone);
      if length == ShortLength then lines[..3] else lines
  }

  /** `fallback_poem`: for the haiku the fixed text with `theme` in front,
      otherwise the chosen template lines joined by newlines. */
  function FallbackPoem(theme: string, style: string, length: string, tone: string): (poem: string)
    ensures poem == Join(FallbackLines(theme, style, length, tone), "\n")
  {
    if style == HaikuStyle then
      HaikuJoined(theme);
      theme + " at sunrise\n" + "soft winds drift across the sky\n" + "hope wakes quietly"
    else
      var lines := TemplateLines(theme, tone);
      Join(if length == ShortLength then lines[..3] else lines, "\n")
  }

  /** The haiku text is its three lines joined by newlines. */
  lemma HaikuJoined(theme: string)
    ensures Join(HaikuLines(theme), "\n") ==
      theme + " at sunrise\n" + "soft winds drift across the sky\n" + "hope wakes quietly"
  {
    var lines := HaikuLines(theme);
    assert lines[1..][1..] == [HaikuLine3];
    assert Join(lines[1..], "\n") == HaikuLine2 + "\n" + HaikuLine3;
    assert Join(lines, "\n") == (theme + " at sunrise") + "\n" + (HaikuLine2 + "\n" + HaikuLine3);
    assert " at sunrise" + "\n" == " at sunrise\n";
    assert HaikuLine2 + "\n" == "soft winds drift across the sky\n";
    ConcatRegroup(theme, " at sunrise", "\n", HaikuLine2, "\n", HaikuLine3);
  }

  /** Regrouping of concatenations; a proof hint for HaikuJoined. */
  lemma ConcatRegroup(a: string, b: string, c: string, d: string, e: string, f: string)
    ensures (a + b) + c + (d + e + f) == a + (b + c) + (d + e) + f
  {
  }

  /** The haiku does not depend on length or tone. */
  lemma HaikuIgnoresLengthAndTone(theme: string, length: string, tone: string)
    ensures FallbackPoem(theme, HaikuStyle, length, tone) ==
      theme + " at sunrise\n" + "soft winds drift across the sky\n" + "hope wakes quietly"
  {
  }

  /** Style matching is exact: every style other than "haiku" (including
      "Haiku") gives the same lines as "free_verse". */
  lemma NonHaikuStylesAgree(theme: string, style: string, length: string, tone: string)
    requires style != HaikuStyle
    ensures FallbackLines(theme, style, length, tone) == FallbackLines(theme, "free_verse", length, tone)
  {
  }

  /** A short non-haiku poem is the first three template lines, untouched by the funny tone. */
  lemma ShortLines(theme: string, style: string, tone: string)
    requires style != HaikuStyle
    ensures FallbackLines(theme, style, ShortLength, tone) ==
      ["In the " + tone + " light of " + theme + ", I stand,",
       WhispersLine, "The " + theme + " sings a story untold,"]
  {
  }

  /** Any other length keeps all four lines in template order; only the last
      line depends on whether the tone is "funny". */
  lemma FullLines(theme: string, style: string, length: string, tone: string)
    requires style != HaikuStyle && length != ShortLength
    ensures FallbackLines(theme, style, length, tone) ==
      ["In the " + tone + " light of " + theme + ", I stand,",
       WhispersLine, "The " + theme + " sings a story untold,",
       if tone == FunnyTone then StardustLine + CheeseSuffix else StardustLine]
  {
  }

  /** The short poem is a prefix of the poem for any other length, as text. */
  lemma ShortPoemIsPrefix(theme: string, style: string, length: string, tone: string)
    ensures FallbackPoem(theme, style, ShortLength, tone) <= FallbackPoem(theme, style, length, tone)
  {
    if style != HaikuStyle && length != ShortLength {
      var lines := TemplateLines(theme, tone);
      JoinPrefix(lines, 3, "\n");
    }
  }

  /** A reader splitting the poem at newlines gets back exactly its lines,
      as long as neither `theme` nor `tone` holds a newline. */
  lemma PoemLinesRecoverable(theme: string, style: string, length: string, tone: string)
    requires '\n' !in theme && '\n' !in tone
    ensures Split(FallbackPoem(theme, style, length, tone), '\n') == FallbackLines(theme, style, length, tone)
  {
    var lines := FallbackLines(theme, style, length, tone);
    assert NoNewline(lines) by {
      if style == HaikuStyle {
        assert '\n' !in " at sunrise";
        assert '\n' !in HaikuLine2 && '\n' !in HaikuLine3;
      } else {
        TemplateHasNoNewline(theme, tone);
      }
    }
    SplitJoin(lines, '\n');
  }

  /** Conversely, a newline inside `theme` makes splitting the poem at
      newlines disagree with its lines: line facts must be read off the lines. */
  lemma NewlineInThemeBreaksSplit(theme: string, style: string, length: string, tone: string)
    requires '\n' in theme
    ensures Split(FallbackPoem(theme, style, length, tone), '\n') != FallbackLines(theme, style, length, tone)
  {
  }

  predicate NoNewline(lines: seq<string>)
  {
    forall i :: 0 <= i < |lines| ==> '\n' !in lines[i]
  }

  lemma TemplateHasNoNewline(theme: string, tone: string)
    requires '\n' !in theme && '\n' !in tone
    ensures NoNewline(TemplateLines(theme, tone))
  {
    var lines := TemplateLines(theme, tone);
    assert '\n' !in "In the " + tone + " light of " + theme + ", I stand," by {
      assert '\n' !in "In the " && '\n' !in " light of " && '\n' !in ", I stand,";
    }
    assert '\n' !in "The " + theme + " sings a story untold," by {
      assert '\n' !in "The " && '\n' !in " sings a story untold,";
    }
    assert '\n' !in WhispersLine;
    assert '\n' !in StardustLine + CheeseSuffix by {
      assert '\n' !in StardustLine && '\n' !in CheeseSuffix;
    }
    assert lines[..3][0] == lines[0] && lines[..3][2] == lines[2];
  }

  // ---------------------------------------------------- generate_poem

  /** One row of the `calls` table, without its random id and its timestamp. */
  datatype Call = Call(theme: string, style: string, length: string, tone: string)

  /** The server with its usage log, the rows of the `calls` table in insertion order. */
  class Server {
    var calls: seq<Call>

    /** Opens the log; the table may already hold rows from earlier runs. */
    constructor (existing: seq<Call>)
      ensures calls == existing
    {
      calls := existing;
    }

    /** `record_call`: appends one row and changes no other row. */
    method RecordCall(theme: string, style: string, length: string, tone: string)
      modifies this
      ensures calls == old(calls) + [Call(theme, style, length, tone)]
    {
      calls := calls + [Call(theme, style, length, tone)];
    }

    /** `generate_poem`: logs the call first, then returns the external model's
        reply stripped of surrounding whitespace when there is one (`reply`
        is `None` when the path is off, unavailable or failed), and otherwise
        the template poem for the same arguments. */
    method GeneratePoem(theme: string, style: string, length: string, tone: string, reply: Option<string>)
      returns (poem: string)
      modifies this
      ensures calls == old(calls) + [Call(theme, style, length, tone)]
      ensures reply.Some? ==> poem == Strip(reply.value)
      ensures reply.None? ==> poem == FallbackPoem(theme, style, length, tone)
    {
      RecordCall(theme, style, length, tone);
      if reply.Some? {
        return Strip(reply.value);
      }
      return FallbackPoem(theme, style, length, tone);
    }
  }
}
