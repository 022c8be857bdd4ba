/**
 * The response handling of FinancialSentimentAnalyzer in
 * sentiment_analyzer/sentiment_pipeline.py: the analysis prompt, the parse of
 * the language model's reply into a score from 1 to 5 with a confidence and
 * a reasoning, the neutral default every failure falls back to, and the
 * blank-text guard of `analyze`.
 *
 * The model call is a parameter: `infer` maps the prompt to the reply, or to
 * None when the call raises.
 */
module SentimentAnalyzer {
  import opened Wrappers
  import opened Strings

  /** The analysis result; confidence is kept in tenths (0.9, 0.7, 0.5 are 9, 7, 5). */
  datatype Sentiment = Sentiment(
    score: nat, description: string, confidenceTenths: nat, reasoning: string, rawResponse: Option<string>)

  const Descriptions: map<nat, string> := map[
    1 := "Very Negative - Severe market concerns or bearish indicators",
    2 := "Negative - Generally unfavorable outlook or challenges",
    3 := "Neutral - Balanced perspective or mixed signals",
    4 := "Positive - Favorable outlook with growth potential",
    5 := "Very Positive - Strong bullish signals or exceptional performance"]

  const DefaultReasoning: string := "Default neutral sentiment due to processing error"

  /** `_get_default_sentiment` */
  const Default: Sentiment := Sentiment(3, Descriptions[3], 5, DefaultReasoning, None)

  /** A prompt template: the text goes between `head` and `tail`. */
  datatype Template = Template(head: string, tail: string)

  /** `self.analysis_prompt`, split at its `{text}` field. */
  const AnalysisPrompt: Template := Template(
    "You are an expert financial analyst tasked with \n            evaluating market sentiment. Analyze the following financial text and provide \n            a sentiment score on a scale of 1 to 5:\n\n            Scoring Guide:\n            1 = Very Negative: Major problems, severe market distress, or significant losses\n            2 = Negative: Challenges, declining metrics, or concerning trends\n            3 = Neutral: Balanced news, mixed signals, or unclear direction\n            4 = Positive: Growth, opportunities, or improving conditions\n            5 = Very Positive: Exceptional performance, strong growth, or major breakthroughs\n\n            Consider:\n            - Financial metrics and performance indicators\n            - Market trends and future projections\n            - Expert opinions and analysis\n            - Broader market implications\n\n            Text to analyze:\n            ",
    "\n\n            Respond ONLY in this exact format:\n            REASONING: [2-3 sentences explaining the score]\n            SCORE: [single number 1-5]\n            CONFIDENCE: [High/Medium/Low]\n            ")

  /** `template.format(text=text)`: the text appears once, whole, between the two halves. */
  function Format(t: Template, text: string): (p: string)
    ensures |p| == |t.head| + |text| + |t.tail|
    ensures p[..|t.head|] == t.head && p[|t.head|..|t.head| + |text|] == text && p[|t.head| + |text|..] == t.tail
  {
    t.head + text + t.tail
  }

  /** `SCORE:\s*(\d)` matches at `i`. */
  predicate ScoreAt(s: string, i: nat) {
    MatchesAt(s, "SCORE:", i) && var k := SkipSpace(s, i + 6); k < |s| && IsDigit(s[k])
  }

  /** The digit captured by the leftmost match of `SCORE:\s*(\d)`. */
  function ScoreMatch(s: string): (r: Option<nat>)
    ensures r.None? <==> forall i: nat :: i <= |s| ==> !ScoreAt(s, i)
    ensures r.Some? ==>
      r.value < 10 &&
      exists i: nat :: i <= |s| && ScoreAt(s, i) && r.value == DigitValue(s[SkipSpace(s, i + 6)]) &&
        forall j: nat :: j < i ==> !ScoreAt(s, j)
  {
    var at := (i: nat) => ScoreAt(s, i);
    var first := FirstFrom(at, 0, |s| + 1);
    assert forall j: nat :: at(j) == ScoreAt(s, j);
    match first
    case None => None
    case Some(i) =>
      var d := DigitValue(s[SkipSpace(s, i + 6)]);
      assert i <= |s| && ScoreAt(s, i) && d == DigitValue(s[SkipSpace(s, i + 6)]);
      Some(d)
  }

  function LevelTenths(level: string): nat {
    if level == "High" then 9 else if level == "Medium" then 7 else 5
  }

  /** The alternative of `(High|Medium|Low)` that matches at `k`, tried in that order. */
  function LevelAt(s: string, k: nat): Option<string> {
    if MatchesAt(s, "High", k) then Some("High")
    else if MatchesAt(s, "Medium", k) then Some("Medium")
    else if MatchesAt(s, "Low", k) then Some("Low")
    else None
  }

  /** `CONFIDENCE:\s*(High|Medium|Low)` matches at `i`. */
  predicate ConfidenceAt(s: string, i: nat) {
    MatchesAt(s, "CONFIDENCE:", i) && LevelAt(s, SkipSpace(s, i + 11)).Some?
  }

  /** The level captured by the leftmost match, "Low" when there is none. */
  function ConfidenceLevel(s: string): (level: string)
    ensures level == "High" || level == "Medium" || level == "Low"
    ensures (forall i: nat :: i <= |s| ==> !ConfidenceAt(s, i)) ==> level == "Low"
    ensures (exists i: nat :: i <= |s| && ConfidenceAt(s, i)) ==>
      exists i: nat :: i <= |s| && ConfidenceAt(s, i) && level == LevelAt(s, SkipSpace(s, i + 11)).value &&
        forall j: nat :: j < i ==> !ConfidenceAt(s, j)
  {
    var at := (i: nat) => ConfidenceAt(s, i);
    var first := FirstFrom(at, 0, |s| + 1);
    assert forall j: nat :: at(j) == ConfidenceAt(s, j);
    match first
    case None => "Low"
    case Some(i) =>
      var level := LevelAt(s, SkipSpace(s, i + 11)).value;
      assert i <= |s| && ConfidenceAt(s, i) && level == LevelAt(s, SkipSpace(s, i + 11)).value;
      level
  }

  /**
   * `REASONING:\s*(.+)` with DOTALL matches at `i` when at least one
   * character follows the label.
   */
  predicate ReasoningAt(s: string, i: nat) {
    MatchesAt(s, "REASONING:", i) && i + 10 < |s|
  }

  /**
   * The captured group of the leftmost match: everything after the label's
   * whitespace up to the end of the reply. When only whitespace follows,
   * `\s*` gives back its last character so that `.+` can match it.
   */
  function ReasoningGroup(s: string): Option<string> {
    var at := (i: nat) => ReasoningAt(s, i);
    match FirstFrom(at, 0, |s| + 1)
    case None => None
    case Some(i) =>
      var k := SkipSpace(s, i + 10);
      Some(if k < |s| then s[k..] else s[|s| - 1..])
  }

  function Reasoning(s: string): string {
    match ReasoningGroup(s)
    case None => ""
    case Some(g) => Trim(g)
  }

  /**
   * A search for a literal that must be followed by at least one character
   * finds the literal's first occurrence, or nothing when that occurrence
   * ends the text.
   */
  lemma FirstLiteral(s: string, p: string, at: nat -> bool)
    requires forall j: nat :: at(j) == (MatchesAt(s, p, j) && j + |p| < |s|)
    ensures IndexOf(s, p).None? ==> FirstFrom(at, 0, |s| + 1).None?
    ensures IndexOf(s, p).Some? ==>
      FirstFrom(at, 0, |s| + 1) == if IndexOf(s, p).value + |p| < |s| then IndexOf(s, p) else None
  {
    var first := FirstFrom(at, 0, |s| + 1);
    var idx := IndexOf(s, p);
    if first.Some? {
      var j := first.value;
      assert at(j);
      IndexOfLeast(s, p, j);
      var i := idx.value;
      assert i + |p| < |s|;
      assert at(i);
      assert i == j;
    } else if idx.Some? {
      var i := idx.value;
      assert !at(i);
    }
  }

  /** The leftmost match of the reasoning pattern is the first label, when text follows it. */
  lemma ReasoningFirst(s: string)
    ensures var first := FirstFrom((i: nat) => ReasoningAt(s, i), 0, |s| + 1);
      match IndexOf(s, "REASONING:")
      case None => first.None?
      case Some(i) => first == if i + 10 < |s| then Some(i) else None
  {
    FirstLiteral(s, "REASONING:", (i: nat) => ReasoningAt(s, i));
  }

  /** Whether `\s*` backtracks or not, the stripped group is the stripped rest of the text. */
  lemma GroupTrim(s: string, m: nat)
    requires m < |s|
    ensures var k := SkipSpace(s, m); Trim(if k < |s| then s[k..] else s[|s| - 1..]) == Trim(s[m..])
  {
    var k := SkipSpace(s, m);
    var t := s[m..];
    if k == |s| {
      assert t == s[m..k];
      var u := s[|s| - 1..];
      assert IsSpace(u[0]) by {
        assert u[0] == s[m..k][|s| - 1 - m];
      }
      assert AllSpace(u) && AllSpace(t);
      assert Trim(u) == [] && Trim(t) == [];
    } else {
      assert t[..k - m] == s[m..k];
      TrimSkipsSpace(t, k - m);
      assert t[k - m..] == s[k..];
    }
  }

  /**
   * The reasoning is the stripped rest of the reply after the first
   * `REASONING:`, later lines included, or "" when the label is absent.
   */
  lemma ReasoningSpec(s: string)
    ensures IndexOf(s, "REASONING:").None? ==> Reasoning(s) == ""
    ensures IndexOf(s, "REASONING:").Some? ==> Reasoning(s) == Trim(s[IndexOf(s, "REASONING:").value + 10..])
  {
    ReasoningFirst(s);
    var idx := IndexOf(s, "REASONING:");
    if idx.Some? {
      var i := idx.value;
      if i + 10 < |s| {
        GroupTrim(s, i + 10);
      } else {
        assert s[i + 10..] == [];
      }
    }
  }

  /** `_parse_llama_response` */
  function ParseResponse(response: string): Sentiment {
    match ScoreMatch(response)
    case None => Default
    case Some(score) =>
      if !(1 <= score <= 5) then Default
      else Sentiment(score, Descriptions[score], LevelTenths(ConfidenceLevel(response)), Reasoning(response), Some(response))
  }

  /** What every analysis result satisfies: a score in 1..5 with its description, and a confidence of 5, 7 or 9 tenths. */
  predicate WellFormed(r: Sentiment) {
    1 <= r.score <= 5 && r.score in Descriptions && r.description == Descriptions[r.score] &&
    r.confidenceTenths in {5, 7, 9}
  }

  /**
   * The parse gives the default exactly when there is no `SCORE:` followed
   * by optional whitespace and a digit, or when that digit is 0 or 6-9.
   * Otherwise the score is that digit, the description its entry, the
   * confidence that of the first CONFIDENCE label (Low when none), and the
   * reply is kept.
   */
  lemma ParseResponseSpec(response: string)
    ensures var r := ParseResponse(response);
      WellFormed(r) &&
      (r.rawResponse.None? <==> ScoreMatch(response).None? || !(1 <= ScoreMatch(response).value <= 5)) &&
      (r.rawResponse.None? ==> r == Default) &&
      (r.rawResponse.Some? ==>
        r.rawResponse == Some(response) && Some(r.score) == ScoreMatch(response) &&
        r.confidenceTenths == LevelTenths(ConfidenceLevel(response)) && r.reasoning == Reasoning(response))
  {
    var m := ScoreMatch(response);
    var r := ParseResponse(response);
    if m.Some? && 1 <= m.value <= 5 {
      var level := ConfidenceLevel(response);
      DescribedScores(m.value);
      assert LevelTenths(level) in {5, 7, 9};
      assert r == Sentiment(m.value, Descriptions[m.value], LevelTenths(level), Reasoning(response), Some(response));
    } else {
      DescribedScores(3);
      assert r == Default;
      assert WellFormed(Default);
    }
  }

  /** Each score from 1 to 5 has a description. */
  lemma DescribedScores(n: nat)
    requires 1 <= n <= 5
    ensures n in Descriptions
  {
  }

  /** The score is the one digit after the label: a reply scoring 10 reads as 1. */
  lemma ScoreExamples()
    ensures ScoreMatch("SCORE: 4") == Some(4)
    ensures ScoreMatch("SCORE: 5") == Some(5)
    ensures ScoreMatch("SCORE: 10") == Some(1)
  {
    assert ScoreAt("SCORE: 4", 0);
    assert ScoreAt("SCORE: 5", 0);
    assert ScoreAt("SCORE: 10", 0);
  }

  /** The level is the word after the leftmost label. */
  lemma ConfidenceExample()
    ensures ConfidenceLevel("CONFIDENCE: Medium") == "Medium"
  {
    var s := "CONFIDENCE: Medium";
    assert SkipSpace(s, 11) == 12;
    assert LevelAt(s, 12) == Some("Medium") by {
      assert s[12..16] != "High";
      assert s[12..18] == "Medium";
    }
    assert ConfidenceAt(s, 0);
  }

  /** The parser accepts the scores 4 and 5. */
  lemma ParseHighScores()
    ensures ParseResponse("SCORE: 4").score == 4 && ParseResponse("SCORE: 4").rawResponse.Some?
    ensures ParseResponse("SCORE: 5").score == 5
  {
    ScoreExamples();
  }

  /** `analyze`: blank text gives the default without calling the model; a failed call gives the default too. */
  function Analyze(prompt: Template, text: string, infer: string -> Option<string>): Sentiment {
    if AllSpace(text) then Default
    else match infer(Format(prompt, text))
      case None => Default
      case Some(response) => ParseResponse(response)
  }

  /**
   * Every analysis is well formed; for blank text it is the default whatever
   * the model would answer, and otherwise it is the parse of the model's
   * answer to the prompt that embeds the text.
   */
  lemma AnalyzeSpec(prompt: Template, text: string, infer: string -> Option<string>, other: string -> Option<string>)
    ensures WellFormed(Analyze(prompt, text, infer))
    ensures AllSpace(text) ==> Analyze(prompt, text, infer) == Default == Analyze(prompt, text, other)
    ensures !AllSpace(text) && infer(Format(prompt, text)).None? ==> Analyze(prompt, text, infer) == Default
    ensures !AllSpace(text) && infer(Format(prompt, text)).Some? ==>
      Analyze(prompt, text, infer) == ParseResponse(infer(Format(prompt, text)).value)
  {
    if !AllSpace(text) && infer(Format(prompt, text)).Some? {
      ParseResponseSpec(infer(Format(prompt, text)).value);
    }
  }
}
